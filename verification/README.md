# FheForge: model of the strategy builder and its data layer

This project models the parts of FheForge that decide something: the strategy-graph engine of
the builder screen, drafts made from templates, the response cache and the token refresh of
the API adapter, the BridgeBus store, and the polling client that feeds it.

A strategy graph is a list of nodes with string ids and a list of edges between ids. Nothing
forces edges to end at nodes, so most results hold for arbitrary edges and the others say that
they need closed ones. Where the source runs a loop over worklists, colours or counters, a
method runs the same loop and is proved equal to a function; the theorems are about the
functions. Objects whose methods update fields are classes: the cache, the interceptor, the
bus, the undo stacks and the polling client.

## Modules

- `Wrappers`, `Graph`: optional values; ids, nodes, edges, walks and cycles.
- `Cycles`: the three-colour search of `detectIssues`. `FirstCycle`: which cycle it reports.
  `Detection`: the whole report, and its agreement with the walk. `Report`: when each issue is
  reported and what it lists. `ListOrder`: what every selected list keeps of the order it is
  selected from.
- `Traversal`: breadth-first search with duplicates in the queue. `WalkOrder`: `walkOrder`.
  `Precedence`: its order among vertices at the same distance. `Topological`: when it is a
  topological order.
  `Ranks`, `Layout`: the ranks and the geometry of `organizeLayout`.
- `Subgraphs`: `groupSubgraphs`. `MergeSwaps`: the merge-swaps action.
- `Naming`, `AiCompile`, `PathGraphs`: the AI planner's steps as a graph, end to end.
- `Renaming`, `RenamedSearch`, `Templates`: drafts and forks.
- `History`, `Timeline`: the undo stacks, and the line of snapshots that they hold. `Editor`,
  `EditEffects`: every edit of the canvas with undo and redo, and what each leaves behind.
- `LruCache`, `TokenRefresh`: the API adapter. `RefreshBounds`: how long its retries can
  go on. `RefreshOutcomes`: how each request ends.
- `BridgeBus`, `DataFetcher`, `PollingClient`: the store, the polling lifecycle as a state
  machine, and the polling object that implements it. `BusEffects`, `FetchEffects`: what both do
  for their callers.
- `Examples`: small graphs, for any distinct ids.

## Where the code and its comments differ

The model follows the code. In each case the exact condition under which the comment is right
is proved, in terms of the input, next to an input on which it is not.

- The "topo walk" is a breadth-first walk with the unreached nodes appended. It is topological
  only if the edges out of reachable vertices advance and, on closed graphs, every node is
  reachable (`Topological.TopologicalIff`, `Topological.ClosedTopologicalIff`,
  `Examples.WalkIsNotTopological`, `Examples.StrayCycleRunsBack`).
- "rank = longest path" is one more than the largest shortest distance of a predecessor
  (`Ranks.RankIsLongestIff`, `Examples.RankIsNotLongestPath`).
- "If only 1 rank, center it": a single column stands at the left edge (`Layout.SingleColumnIsLeft`).
- Only the first cycle found is tested for being all repeats (`FirstCycle.FindCycleIsFirstLoop`
  says which cycle that is; `Detection.CycleErrorExactIff`, `Examples.RepeatLoopHidesCycle`).
- Merging a chain of three swaps leaves dangling edges (`MergeSwaps.MergeClosedIff`); without
  a chain no pair is left to merge (`MergeSwaps.MergeClearsTip`). A node other than a swap that
  feeds a removed swap may lose its way (`MergeSwaps.MergePreservesReachIff`,
  `Examples.MergeLosesWay`).
- Deleting a node does not cancel a pending connection from it (`Editor.DeleteStrandsPending`).
- Overwriting a cached key is not a touch (`LruCache.OverwriteTouchesIff`,
  `LruCache.OverwriteIsNotATouch`); a maximum below one acts as one.
- The gate of the bus guards the store, not the announcements
  (`BridgeBus.RejectedUpdateAnnounced`). `reset()` reopens it (`BridgeBus.ResetReopensGate`), and
  a start after a sign-in leaves data behind it (`BridgeBus.LateStartStrandsData`).
  `BridgeBus.GateHoldsIff` says which operations break it, on every run.
- Starting a group while polling is paused duplicates its timers (`DataFetcher.ResumeDuplicatesIff`,
  `DataFetcher.HiddenStartDuplicates`); `DataFetcher.PollOnceIff` says on which runs that happens.
- k undos and k redos restore the canvas and the stacks only while there is enough past, or when
  nothing had been undone (`Editor.UndoThenRedoRestoresIff`).
- "Fetch immediately once" for strategies, proposals, community, templates and node types never
  fetches: the three timers started just before take the last slots
  (`DataFetcher.OneShotsAreAlwaysDropped`).
- "Fetch on public polling too" holds for proposals only when every slot is free and readiness is
  being checked already (`DataFetcher.PublicStartAdmits`, `DataFetcher.FirstPublicStartDropsProposals`);
  and even then they are not stored without signing in (`FetchEffects.PublicSourcesNeedNoSignIn`).
- The undo history belongs to the workspace, not to the draft: undo after a switch shows the graph
  of the draft left behind (`Editor.UndoCrossesDrafts`).

## Assumptions

- Edge keys such as `a→b` are pairs of ids. Ids drawn from clocks and random numbers are a
  supply of unused ids; the prefix of AI ids and the draft id are parameters.
- A missing entry of a template id map reads as the id `undefined`. A planner step of type
  `constructor` or `__proto__` becomes a node, as both pass the lookup in a plain object; the
  configuration it inherits there reads as empty.
- The comparator that sorts a column is any function that reorders it. Canvas sizes and
  positions are real numbers; rounding is not modelled.
- Snapshots are compared by value, as their JSON text is. React applies an edit and runs the
  effect that records it as one step.
- A copy or duplicate of a node that is gone does nothing, as the handler throws first.
- The HTTP client keeps the retry mark on a resent request, refresh errors are truthy, and the
  refresh call itself does not pass the interceptor. Responses, refresh outcomes, timer ticks
  and results arrive as events in any order.
- Allowed editor sessions leave out two edits that break closedness: completing a connection whose
  source is gone and merging a chain of swaps. `Editor.SessionValidIff` says that, of the edits
  offered, exactly these do. Ids are unused when offered, and a draft switched to is well formed.
- Dragging, nudging, organising and configuring nodes are one edit that keeps their ids.
- Listeners of the bus do not call back into it; `log` lists what is announced.

## Model

| member | source | states |
|---|---|---|
| `Naming.DecimalInjective` | `ui/screens/builder-workspace.jsx:303-303` | Ids that end in different indices differ: decimal numerals repeat no text. |
| `Naming.DecimalReadsBack` | `ui/screens/market.jsx:74-79` | A numeral reads back as its number and has no leading zero. |
| `Graph.FindNode` | `ui/screens/builder-workspace.jsx:159-159` | The node found has the id asked for, and none is found exactly when no node has it. |
| `Graph.Succs` | `ui/screens/builder-workspace.jsx:124-124` | The targets listed for a vertex are exactly those its edges name. |
| `Graph.HasKindIff` | `ui/screens/builder-workspace.jsx:189-191` | Where ids do not repeat, a vertex has the kind of the node with its id. |
| `ListOrder.FilterPicks` | `ui/screens/builder-workspace.jsx:116-116` | Selecting from a list keeps order and repetitions: the positions kept rise and are exactly those that pass. |
| `ListOrder.RootsSelect` | `ui/screens/builder-workspace.jsx:113-116` | The roots are the nodes no edge points to, in list order. |
| `ListOrder.KeepNodesSelects` | `ui/screens/builder-workspace.jsx:947-947` | The nodes kept are those not removed, in list order. |
| `ListOrder.KeepEdgesSelects` | `ui/screens/builder-workspace.jsx:949-949` | The edges kept are those that touch no removed node, in order. |
| `ListOrder.SwapPairsSelects` | `ui/screens/builder-workspace.jsx:197-202` | The pairs are the edges that join two swaps, in edge order. |
| `Cycles.FindCycleIffCyclic` | `ui/screens/builder-workspace.jsx:136-157` | The three-colour search reports a cycle exactly when the directed graph on the nodes has one, and what it reports is a closed walk of real edges, inside the nodes, that repeats no vertex apart from its end points. Holds for any edges, dangling ones included. |
| `Cycles.VisitCorrect` | `ui/screens/builder-workspace.jsx:143-154` | One call of the inner search either closes a simple cycle or finishes its vertex: grey vertices unchanged, finished ones lead only to finished ones and carry no cycle. |
| `Cycles.ScanCorrect` | `ui/screens/builder-workspace.jsx:145-151` | The loop over successors keeps the path grey, simple and made of edges, and leaves every successor finished. |
| `Cycles.Dfs` | `ui/screens/builder-workspace.jsx:143-154` | The recursive method computes the specified search, colours included. |
| `Cycles.DetectCycle` | `ui/screens/builder-workspace.jsx:136-157` | The detector computes the specified cycle, and finds one exactly on cyclic graphs. |
| `Cycles.BuildAdjacency` | `ui/screens/builder-workspace.jsx:137-139` | The adjacency lists are the successors in edge order, for nodes only. |
| `FirstCycle.FindCycleIsFirstLoop` | `ui/screens/builder-workspace.jsx:136-157` | The reported cycle, from the graph alone: start at the first listed node that leads to a cycle, always take the first edge to a node that does, and stop at the first repetition. |
| `FirstCycle.VisitFollowsTrail` | `ui/screens/builder-workspace.jsx:143-154` | A call of the inner search finds a cycle exactly when its vertex leads to one, and then the one that this rule gives from its path. |
| `FirstCycle.BlackNeverCircles` | `ui/screens/builder-workspace.jsx:144-153` | A black vertex leads to no cycle, so the search never turns back once it could. |
| `FirstCycle.CirclingGoesOn` | `ui/screens/builder-workspace.jsx:145-151` | A vertex that leads to a cycle has a successor that does. |
| `Cycles.CloseCycle` | `ui/screens/builder-workspace.jsx:146-148` | Meeting a grey vertex, the path from it and back is a simple cycle of real edges. |
| `Cycles.FinishVertex` | `ui/screens/builder-workspace.jsx:152-152` | A vertex may turn black once its successors are: black vertices still lead only to black ones and lie on no cycle. |
| `Cycles.SearchFromCorrect` | `ui/screens/builder-workspace.jsx:155-157` | The outer loop either stops at a simple cycle or finishes every listed node, undoing nothing finished before. |
| `Traversal.ReachedByDistance` | `ui/screens/builder-workspace.jsx:118-125` | Although the queue may hold duplicates, the traversal visits exactly what the in-degree-0 nodes reach, each once, with non-decreasing levels that are shortest distances. |
| `Traversal.VisitKeepsFrontier` | `ui/screens/builder-workspace.jsx:119-125` | One loop turn that visits keeps the frontier: levels are walk lengths, the queue spans two adjacent levels, roots and targets of visited vertices are listed. |
| `Traversal.SkipKeepsFrontier` | `ui/screens/builder-workspace.jsx:121-121` | One loop turn that skips a vertex seen before keeps the frontier. |
| `Traversal.VisitShrinks` | `ui/screens/builder-workspace.jsx:119-125` | Each visit shrinks the set of vertices still to visit, so the loop ends on every graph, cyclic or dangling. |
| `Traversal.CycleIffLeadsBack` | `ui/screens/builder-workspace.jsx:136-157` | A cycle among closed edges is a vertex that leads back to itself in at least one step. |
| `Traversal.Roots` | `ui/screens/builder-workspace.jsx:113-116` | The roots are exactly the nodes without an incoming edge. |
| `Traversal.StartFrontier` | `ui/screens/builder-workspace.jsx:116-118` | The queue of roots, with nothing visited, satisfies the frontier invariant. |
| `Traversal.BfsFrontier` | `ui/screens/builder-workspace.jsx:119-125` | The whole loop keeps the frontier invariant and ends with an empty queue. |
| `Traversal.WalksAreVisited` | `ui/screens/builder-workspace.jsx:119-125` | Once the queue is empty, whatever a walk of n steps reaches was visited at a level of at most n. |
| `WalkOrder.OrderByDistance` | `ui/screens/builder-workspace.jsx:110-128` | The order lists the reachable vertices first, by non-decreasing shortest distance from the in-degree-0 nodes and each once, then the remaining nodes in list order. |
| `WalkOrder.OrderIsPermutation` | `ui/screens/builder-workspace.jsx:110-128` | On distinct ids and closed edges the order is a permutation of the nodes. |
| `Topological.TopologicalIff` | `ui/screens/builder-workspace.jsx:110-128` | On any graph, the order returned is topological exactly when every edge out of a reachable vertex raises the shortest distance by one, or keeps it and leads to a vertex that its source precedes, and every edge out of an unreached node leads to a node unreached as well and listed later. |
| `Topological.ClosedTopologicalIff` | `ui/screens/builder-workspace.jsx:110-128` | On a closed graph, the order returned is topological exactly when every edge out of a reachable vertex does so and every node is reachable from the in-degree-0 nodes. |
| `Topological.ReachedForwardIff` | `ui/screens/builder-workspace.jsx:110-125` | The edges between reachable vertices run forward exactly when each raises the distance, or keeps it and goes up in precedence. |
| `Topological.LeftoverTopologicalIff` | `ui/screens/builder-workspace.jsx:126-126` | The appended nodes are in topological order exactly when the edges between them follow the list. |
| `Precedence.ReachedByPrecedence` | `ui/screens/builder-workspace.jsx:116-125` | Of two visited vertices the one nearer to the roots comes first, and at equal distance the one that precedes: the order is determined by the graph, whatever the queue held. |
| `Precedence.BfsVisitsFirsts` | `ui/screens/builder-workspace.jsx:119-125` | The vertices visited are those ever queued, by first occurrence. |
| `Precedence.HasFirstParent` | `ui/screens/builder-workspace.jsx:119-125` | A vertex away from the roots is first queued by the earliest visited of its parents, which lies one step closer. |
| `Topological.LevelledIffTopological` | `ui/screens/builder-workspace.jsx:110-128` | In a closed graph, every node is reachable and every edge raises the distance by one exactly when the order returned is topological and no edge joins reachable vertices at equal distance. |
| `WalkOrder.LevelledRunsForward` | `ui/screens/builder-workspace.jsx:110-125` | If every edge out of a reachable vertex raises the distance by one, the edges between reachable vertices run forward. |
| `WalkOrder.OneFeederIsLevelled` | `ui/screens/builder-workspace.jsx:110-125` | On forests and chains, where at most one vertex feeds each vertex, every edge raises the distance by one. |
| `WalkOrder.GradedIsLevelled` | `ui/screens/builder-workspace.jsx:110-125` | So it does wherever some height starts at 0 on the roots and grows by one along every edge. |
| `WalkOrder.ComputeOrder` | `ui/screens/builder-workspace.jsx:111-128` | The worklist method returns the specified order. |
| `WalkOrder.FindRoots` | `ui/screens/builder-workspace.jsx:113-116` | Counting incoming edges selects the nodes no edge points to, in list order. |
| `WalkOrder.CountIncoming` | `ui/screens/builder-workspace.jsx:113-115` | The counters hold the in-degree of every node; edges to other ids are not counted. |
| `WalkOrder.PushTargets` | `ui/screens/builder-workspace.jsx:124-124` | Visiting queues the targets in edge order, visited or not. |
| `WalkOrder.AppendUnseen` | `ui/screens/builder-workspace.jsx:126-126` | The last loop appends the unseen nodes in list order. |
| `WalkOrder.Leftover` | `ui/screens/builder-workspace.jsx:126-126` | What it appends are exactly the ids not seen. |
| `WalkOrder.ForwardRaisesDistance` | `ui/screens/builder-workspace.jsx:110-125` | Where the edges between reachable vertices run forward, each keeps the distance or raises it by one. |
| `Examples.WalkIsNotTopological` | `ui/screens/builder-workspace.jsx:110-128` | On a→c, a→b, b→c, an acyclic graph, the order returned is a, c, b. |
| `Examples.StrayCycleRunsBack` | `ui/screens/builder-workspace.jsx:110-128` | On r→c, a→b, b→a, b→c every edge out of a reachable vertex raises the distance by one, and yet b→c runs back in the order returned. |
| `Ranks.RankByDistance` | `ui/screens/builder-workspace.jsx:217-235` | The rank exceeds the shortest distance of every reachable predecessor and, when positive, is one more than that of some predecessor. |
| `Ranks.RankZeroIff` | `ui/screens/builder-workspace.jsx:217-235` | The rank is 0 exactly for roots and for vertices out of reach. |
| `Ranks.RankIsLongestIff` | `ui/screens/builder-workspace.jsx:217-235` | The rank is the longest walk from the roots, as the comment says, exactly when every edge out of a reachable non-root ascends: the target has a predecessor farther away than all predecessors of the source. |
| `Ranks.AscendsIffRanksRise` | `ui/screens/builder-workspace.jsx:217-235` | An edge ascends exactly when it is drawn from a lower to a higher rank. |
| `Ranks.LevelledRank` | `ui/screens/builder-workspace.jsx:217-235` | Where every edge raises the distance by one, the rank is the distance and the longest walk. |
| `Ranks.RankFromIsMaximum` | `ui/screens/builder-workspace.jsx:230-231` | Raising the target of each visited edge leaves one more than the largest level of a visited predecessor. |
| `Ranks.RankIsWalk` | `ui/screens/builder-workspace.jsx:217-235` | The rank of a reachable vertex is the length of some walk from a root, so it never exceeds the longest one. |
| `Ranks.RiseBoundsWalks` | `ui/screens/builder-workspace.jsx:217-235` | Any numbering that rises along every reachable edge bounds the walks to each vertex. |
| `Examples.RankIsNotLongestPath` | `ui/screens/builder-workspace.jsx:217-235` | On a→b→c→d with the shortcut a→c, c and d share rank 2 although d is three steps away. |
| `Examples.DiamondIsLevelled` | `ui/screens/builder-workspace.jsx:217-235` | A balanced diamond is such a graph. |
| `Layout.ComputeRanks` | `ui/screens/builder-workspace.jsx:217-235` | The worklist method gives every node its rank. |
| `Layout.RankFromRoots` | `ui/screens/builder-workspace.jsx:222-234` | The rank loop agrees with the traversal. |
| `Layout.PlacedApart` | `ui/screens/builder-workspace.jsx:242-291` | Any two distinct nodes are placed at distinct points inside the padded canvas, whatever order the sort gives each column. |
| `Layout.ColumnFits` | `ui/screens/builder-workspace.jsx:246-253` | For any canvas width, every column lies between the paddings. |
| `Layout.RowFits` | `ui/screens/builder-workspace.jsx:247-285` | For any canvas height, every row of every centred column lies between the paddings. |
| `Layout.ColumnCentred` | `ui/screens/builder-workspace.jsx:283-285` | A column leaves as much room above its first node as below its last. |
| `Layout.RowsEven` | `ui/screens/builder-workspace.jsx:275-288` | Rows are evenly spaced, at most 110 apart; if closer, the fullest column fills the height from edge to edge. |
| `Layout.ColumnsSpan` | `ui/screens/builder-workspace.jsx:251-287` | Several columns are evenly spaced from the left edge to the right edge. |
| `Layout.SingleColumnIsLeft` | `ui/screens/builder-workspace.jsx:251-287` | A single column stands at the left edge, with more room to its right. |
| `Layout.RoomOfCanvas` | `ui/screens/builder-workspace.jsx:248-249` | The room is the canvas without its paddings, but never less than 400 by 300. |
| `Layout.SortBuckets` | `ui/screens/builder-workspace.jsx:262-273` | Sorting reorders columns after the first and changes no column's contents. |
| `Layout.OrganizeLayout` | `ui/screens/builder-workspace.jsx:215-292` | The layout changes positions only, puts each node in the column of its rank and in the row its column gives it, keeps it inside the canvas and separates distinct nodes, for any canvas size and any sort. |
| `Layout.VisitHead` | `ui/screens/builder-workspace.jsx:226-233` | One turn of the rank loop raises the ranks of the targets, leaves the traversal to come unchanged and shrinks what is left to visit. |
| `Layout.Relax` | `ui/screens/builder-workspace.jsx:229-233` | The loop over targets raises each rank to at least one more than the level and queues the target. |
| `Layout.FillBuckets` | `ui/screens/builder-workspace.jsx:255-260` | Each column holds exactly the nodes of its rank. |
| `Layout.MaxRank` | `ui/screens/builder-workspace.jsx:237-237` | The last column is the largest rank of a node. |
| `Layout.LargestBucket` | `ui/screens/builder-workspace.jsx:276-276` | The spacing is taken from the fullest column. |
| `Layout.PlaceAll` | `ui/screens/builder-workspace.jsx:279-291` | Placing moves nodes only, inside the canvas, column by rank and apart from each other. |
| `Subgraphs.GroupsPartition` | `ui/screens/builder-workspace.jsx:961-983` | The groups hold every node, repeat none, and two grouped nodes share a group exactly when an undirected path joins them. |
| `Subgraphs.GroupSubgraphs` | `ui/screens/builder-workspace.jsx:961-983` | The method fails exactly when some edge has a single end on the canvas, and otherwise returns the connected parts in the order of their first node. |
| `ListOrder.GroupsInListOrder` | `ui/screens/builder-workspace.jsx:967-982` | The groups come in the order of their first nodes, which are the nodes joined to none listed before them, and each group lists in order what is joined to its first node. |
| `Subgraphs.Flood` | `ui/screens/builder-workspace.jsx:968-979` | The stack loop visits exactly the component of its seed, or meets an id without neighbours because an edge is half dangling. |
| `Subgraphs.BuildNeighbours` | `ui/screens/builder-workspace.jsx:962-964` | The neighbour sets hold exactly the linked ids, for nodes only. |
| `Subgraphs.ComponentsCover` | `ui/screens/builder-workspace.jsx:967-981` | Every node not done before lands in a group. |
| `Subgraphs.ComponentsSeparate` | `ui/screens/builder-workspace.jsx:967-981` | No node of one group is joined to a node of another, and no group touches what was done before. |
| `Subgraphs.VisitKeepsFlooding` | `ui/screens/builder-workspace.jsx:971-979` | One visit keeps the invariant of the stack loop: what is visited hangs together and its neighbours are visited or stacked. |
| `Subgraphs.FloodedComponent` | `ui/screens/builder-workspace.jsx:968-980` | With the stack empty, the group is exactly the component of its seed. |
| `Subgraphs.PushNeighbours` | `ui/screens/builder-workspace.jsx:976-978` | The unvisited neighbours, and only those, join the stack. |
| `Subgraphs.FilterNodes` | `ui/screens/builder-workspace.jsx:982-982` | A group is turned into its nodes in list order. |
| `MergeSwaps.MergedEdgeIff` | `ui/screens/builder-workspace.jsx:944-957` | An edge of the merged graph is a surviving edge or bridges a removed swap from the first swap of a pair to a successor of the second. |
| `MergeSwaps.MergeClosedIff` | `ui/screens/builder-workspace.jsx:944-957` | Merging a closed graph gives a closed graph exactly when no removed swap feeds another swap. |
| `MergeSwaps.MergeAddsNoPath` | `ui/screens/builder-workspace.jsx:944-957` | The rewrite never connects what was not connected, and uses no edge by which a node other than a swap feeds a removed swap. |
| `MergeSwaps.MergeKeepsPath` | `ui/screens/builder-workspace.jsx:944-957` | Survivors connected without such edges stay connected. |
| `MergeSwaps.MergePreservesReachIff` | `ui/screens/builder-workspace.jsx:944-957` | Without swap chains, connection among survivors is unchanged exactly when, before the merge, every other node that feeds a removed swap leads to its surviving successors without the edges the merge drops. |
| `MergeSwaps.MergeReachIsFed` | `ui/screens/builder-workspace.jsx:944-957` | Without swap chains, survivors are connected after the merge exactly if they were before along edges other than those by which a node other than a swap feeds a removed swap. |
| `MergeSwaps.FedSuffices` | `ui/screens/builder-workspace.jsx:944-957` | With every removed swap bypassed, those edges are not needed for any connection among survivors. |
| `Examples.MergeLosesWay` | `ui/screens/builder-workspace.jsx:944-957` | On s→b, a→b, b→d with swaps a and b, the supply s no longer reaches d. |
| `MergeSwaps.SwapFedIsBypassed` | `ui/screens/builder-workspace.jsx:944-957` | If only swaps feed removed swaps, every removed swap is bypassed. |
| `MergeSwaps.MergePreservesCycles` | `ui/screens/builder-workspace.jsx:944-957` | Under the same conditions the merged graph is cyclic exactly when the graph was. |
| `MergeSwaps.MergeCyclesAreFed` | `ui/screens/builder-workspace.jsx:944-957` | In general the merged graph is cyclic exactly when the graph was without the edges the merge drops. |
| `MergeSwaps.CollectPairs` | `ui/screens/builder-workspace.jsx:196-202` | The tip lists the edges from a swap to a swap, in edge order. |
| `MergeSwaps.ApplyMerge` | `ui/screens/builder-workspace.jsx:944-957` | The nested loops compute the merged nodes and edges. |
| `MergeSwaps.SwapPairs` | `ui/screens/builder-workspace.jsx:197-202` | The pairs are exactly the edges with a swap at both ends. |
| `MergeSwaps.LinkDownstream` | `ui/screens/builder-workspace.jsx:953-953` | The targets of the removed swap are linked to the first swap, skipping links already there. |
| `MergeSwaps.HandDown` | `ui/screens/builder-workspace.jsx:951-954` | Pair by pair, in order, the outgoing edges of removed swaps are handed on. |
| `MergeSwaps.BypassStep` | `ui/screens/builder-workspace.jsx:944-957` | What feeds a removed swap leads to its surviving successors without the dropped edges. |
| `MergeSwaps.FeederSurvives` | `ui/screens/builder-workspace.jsx:946-947` | Without swap chains, what feeds a removed swap survives. |
| `MergeSwaps.SurvivorOnCycle` | `ui/screens/builder-workspace.jsx:944-957` | A cycle through a removed swap passes a survivor as well. |
| `MergeSwaps.FindKept` | `ui/screens/builder-workspace.jsx:947-947` | Survivors keep their node, kind included. |
| `MergeSwaps.MergeClearsTip` | `ui/screens/builder-workspace.jsx:196-209` | After merging a closed graph without swap chains no pair is left: the tip does not come back. |
| `Detection.CycleErrorSound` | `ui/screens/builder-workspace.jsx:158-161` | The cycle error is raised only if some cycle passes a node other than a repeat. |
| `Detection.CycleErrorIff` | `ui/screens/builder-workspace.jsx:158-161` | The error is raised exactly when that first loop passes a node other than a repeat. |
| `Detection.CycleErrorExact` | `ui/screens/builder-workspace.jsx:158-161` | Without a cycle made of repeats alone, the error is raised exactly on cyclic graphs. |
| `Detection.CycleErrorExactIff` | `ui/screens/builder-workspace.jsx:158-161` | The error tells whether a cycle passes a node other than a repeat exactly when the first loop of the graph does, or no cycle does. |
| `Examples.RepeatLoopHidesCycle` | `ui/screens/builder-workspace.jsx:158-161` | A repeat with an edge to itself hides a cycle of two other nodes. |
| `Detection.AcyclicOrderNeedsNoFallback` | `ui/screens/builder-workspace.jsx:118-157` | When the detector finds no cycle in a closed graph, every node is reachable from an in-degree-0 node and the walk's final loop adds nothing. |
| `Detection.SourcelessHasCycle` | `ui/screens/builder-workspace.jsx:136-157` | A non-empty set of vertices that each have a predecessor in the set contains a cycle. |
| `Detection.DetectIssues` | `ui/screens/builder-workspace.jsx:131-212` | The issues are those of the report; an edge is a warning exactly if a borrow feeds a settle along it, and an error exactly if it lies on the reported cycle and is no warning. |
| `Report.MissingSettleReportedIff` | `ui/screens/builder-workspace.jsx:182-185` | The missing settle is reported exactly on a non-empty canvas without a settle. |
| `Report.GoNowhereReportedIff` | `ui/screens/builder-workspace.jsx:169-180` | Dead ends are reported exactly if some node other than settle has no outgoing edge, and these are listed in list order. |
| `Report.MergeTipReportedIff` | `ui/screens/builder-workspace.jsx:196-209` | The merge tip is reported exactly if some edge joins two swaps, and these edges are listed in edge order. |
| `Report.CycleReportedIff` | `ui/screens/builder-workspace.jsx:158-167` | The cycle shown is the first loop of the graph, and it is shown exactly if it passes a node other than a repeat. |
| `Report.IssuesInOrder` | `ui/screens/builder-workspace.jsx:131-212` | Issues come as cycle, dead ends, missing settle, tip, each at most once. |
| `Report.BorrowToSettleIff` | `ui/screens/builder-workspace.jsx:187-194` | On distinct ids, an edge is a warning exactly if its source is a borrow and its target a settle. |
| `Report.ErrorEdgeIff` | `ui/screens/builder-workspace.jsx:162-165` | The edges painted as errors are the steps of the cycle that the report shows. |
| `Report.DeadEndsSelect` | `ui/screens/builder-workspace.jsx:170-173` | The dead ends are the nodes other than settle that no edge leaves, in list order. |
| `Detection.DeadEnds` | `ui/screens/builder-workspace.jsx:170-180` | No node goes nowhere exactly when every node other than settle has an outgoing edge. |
| `Detection.ReportCycle` | `ui/screens/builder-workspace.jsx:158-167` | The error and its marked edges appear exactly when the cycle found is not all repeats. |
| `Detection.MarkCycle` | `ui/screens/builder-workspace.jsx:162-165` | Exactly the edges of the reported cycle are marked. |
| `Detection.CountOutgoing` | `ui/screens/builder-workspace.jsx:170-172` | The counters hold the out-degree of every node. |
| `Detection.CollectDeadEnds` | `ui/screens/builder-workspace.jsx:173-180` | The dead ends are collected in list order. |
| `Detection.MarkBorrows` | `ui/screens/builder-workspace.jsx:188-194` | A borrow that settles directly turns its edge into a warning, over an error if need be, and changes no other mark. |
| `Detection.ReportRest` | `ui/screens/builder-workspace.jsx:169-209` | Dead ends, a missing settle and the tip are reported in this order. |
| `Detection.UnreachedIsSourceless` | `ui/screens/builder-workspace.jsx:118-126` | In a closed graph every unreached node has an unreached predecessor. |
| `Detection.AcyclicAllReachable` | `ui/screens/builder-workspace.jsx:118-157` | In a closed acyclic graph every node is reachable from an in-degree-0 node. |
| `Detection.RepeatCycleFound` | `ui/screens/builder-workspace.jsx:158-160` | A reported cycle that is all repeats is a cycle of the repeats alone. |
| `AiCompile.CanvasIsSettledPath` | `ui/screens/builder-workspace.jsx:295-323` | The compiled nodes have distinct ids, end in settle, and are empty exactly when no step is recognised. |
| `AiCompile.AiStepsToCanvas` | `ui/screens/builder-workspace.jsx:295-323` | The method builds those nodes and links them as one simple path. |
| `AiCompile.CollectNodes` | `ui/screens/builder-workspace.jsx:300-315` | Recognised steps become nodes in step order; unknown ones and reward claims are skipped. |
| `AiCompile.StepNodesSelect` | `ui/screens/builder-workspace.jsx:300-315` | The compiled nodes are the recognised steps in step order, each with the id of its position, its own kind and the configuration of its kind. |
| `AiCompile.KindOfIff` | `ui/screens/builder-workspace.jsx:301-302` | A step type is recognised exactly by the name of its kind. |
| `AiCompile.ConfigSaysTokens` | `ui/screens/builder-workspace.jsx:304-313` | A supply takes asset and amount from the token put in, a borrow from the token taken out, a swap its assets from both and its estimated amount from the latter, with defaults where nothing is said. |
| `AiCompile.SettleOnlyIfMissing` | `ui/screens/builder-workspace.jsx:317-321` | A settle is appended exactly when steps are recognised and the last of them is none. |
| `AiCompile.LinkInOrder` | `ui/screens/builder-workspace.jsx:316-316` | Consecutive nodes are linked, and only those. |
| `PathGraphs.CompiledStepsAreSound` | `ui/screens/builder-workspace.jsx:111-323` | For any step list with a recognised step the compiled graph is closed, raises at most the swap tip, walks in step order and puts node i in rank i. |
| `PathGraphs.PathReached` | `ui/screens/builder-workspace.jsx:111-126` | The traversal of a path lists its nodes in path order. |
| `PathGraphs.PathRank` | `ui/screens/builder-workspace.jsx:217-235` | Node i of a path has rank i. |
| `PathGraphs.PathIsLevelled` | `ui/screens/builder-workspace.jsx:217-235` | A path is such a graph. |
| `PathGraphs.PathDistance` | `ui/screens/builder-workspace.jsx:111-126` | Node i of a path is at distance i from its only root. |
| `PathGraphs.PathHasNoCycle` | `ui/screens/builder-workspace.jsx:136-157` | The detector finds no cycle in a path. |
| `PathGraphs.PathHasNoDeadEnd` | `ui/screens/builder-workspace.jsx:169-180` | A path that ends in settle has no dead end. |
| `Templates.IdMapInjective` | `ui/screens/market.jsx:76-77` | The template id map never sends two ids to the same draft id; the numerals in the new ids are compared as text. |
| `Templates.DraftBehavesAsTemplate` | `ui/screens/market.jsx:65-100` | A closed template with its ids renamed through the map walks in the renamed order, and the detector reports the renamed cycle or none for both. |
| `Templates.NumberedIsRenamedIff` | `ui/screens/market.jsx:73-94` | Naming nodes by position and naming them through the map agree exactly when the template repeats no id. |
| `Templates.DraftIsClosed` | `ui/screens/market.jsx:65-100` | A draft of a closed template without repeated ids is closed and repeats no id. |
| `Templates.CreateDraft` | `ui/screens/market.jsx:65-83` | Nodes are named by position and edges renamed through the map; the draft is the renamed template exactly when the template repeats no id. |
| `Templates.ForkCommunity` | `ui/screens/market.jsx:85-101` | Nodes and edges are renamed through the map. |
| `Templates.BuildIdMap` | `ui/screens/market.jsx:89-90` | The map sends each template id to the draft id of its last position. |
| `Templates.DraftIdInjective` | `ui/screens/market.jsx:73-74` | Draft ids of different positions differ. |
| `Templates.DraftIdNumbers` | `ui/screens/market.jsx:74-79` | A draft id counts its node from one. |
| `Templates.StrayEndsAreUndefined` | `ui/screens/market.jsx:80-80` | An edge end of the template takes the draft id of a node with its id, or becomes `undefined` if there is none. |
| `Renaming.OrderRenamed` | `ui/screens/builder-workspace.jsx:111-128` | The walk of an injectively renamed graph is the renamed walk. |
| `Renaming.ReachedRenamed` | `ui/screens/builder-workspace.jsx:116-125` | The traversal of an injectively renamed graph visits the renamed vertices in the same order at the same levels. |
| `RenamedSearch.FindCycleRenamed` | `ui/screens/builder-workspace.jsx:136-157` | The search of an injectively renamed graph reports the renamed cycle. |
| `RenamedSearch.VisitSame` | `ui/screens/builder-workspace.jsx:143-154` | One call of the inner search runs alike on a graph and on its renaming. |
| `Editor.SessionsStayValid` | `ui/screens/builder-workspace.jsx:405-635` | In every allowed session of edits, undo, redo and switches between drafts: ids distinct, edges closed, no self-loops, no parallel edges, every snapshot likewise, and at most fifty snapshots in both stacks. |
| `Editor.SessionValidIff` | `ui/screens/builder-workspace.jsx:910-957` | A session of offered edits stays valid throughout exactly when each connection completed starts at a node on the canvas and each merge meets no chain of swaps. |
| `Editor.StepValidIff` | `ui/screens/builder-workspace.jsx:910-957` | The same for one edit. |
| `Editor.AcceptKeepsWellFormed` | `ui/screens/builder-workspace.jsx:1437-1446` | Accepting a suggested step adds a node and an edge to it and keeps the graph well formed. |
| `Editor.UndoCrossesDrafts` | `ui/screens/market.jsx:248-256` | The workspace survives a switch of drafts with its history, so undo shows the graph of the draft left behind. |
| `Editor.StepKeepsValid` | `ui/screens/builder-workspace.jsx:405-635` | Each allowed edit, undo and redo included, keeps the editor valid and its canvas on top of the past. |
| `Editor.ConnectKeepsClosedIff` | `ui/screens/builder-workspace.jsx:910-920` | Completing a connection keeps the edges closed exactly when the pending source is still on the canvas. |
| `EditEffects.ConnectDrawsForward` | `ui/screens/builder-workspace.jsx:910-920` | The out port of a, then the in port of another node b, draws the edge from a to b behind the others, once, ends the pending connection, and changes nothing else. |
| `EditEffects.InPortAloneDoesNothing` | `ui/screens/builder-workspace.jsx:910-920` | An in port without a pending connection from another node changes nothing. |
| `EditEffects.CancelEndsConnecting` | `ui/screens/builder-workspace.jsx:647-647` | Once cancelled, a pending connection is completed by no port. |
| `Editor.DeleteStrandsPending` | `ui/screens/builder-workspace.jsx:521-540` | Deleting the pending source leaves it pending, and completing the connection then leaves a dangling edge. |
| `Editor.PasteKeepsWellFormed` | `ui/screens/builder-workspace.jsx:616-635` | Pasting adds copies under new ids with the edges among them and keeps the graph well formed. |
| `Editor.PastedFrom` | `ui/screens/builder-workspace.jsx:628-633` | The pasted edges are exactly the renamed current edges among the copied nodes. |
| `EditEffects.PasteMirrors` | `ui/screens/builder-workspace.jsx:616-635` | Two pasted copies are joined exactly as their originals are on the canvas; the only new edges run between copies, which are moved by 32 both ways. |
| `Editor.DeleteKeepsWellFormed` | `ui/screens/builder-workspace.jsx:521-540` | Deleting an edge, a multi-selection or a node keeps the graph well formed. |
| `EditEffects.DeleteRemovesChosen` | `ui/screens/builder-workspace.jsx:521-540` | Delete removes the selected edge if there is one, else the nodes of the multi-selection, else the selected node, with exactly the edges that touch them; the rest keeps its order, and the pending source stays. |
| `EditEffects.AddThenDelete` | `ui/screens/builder-workspace.jsx:521-576` | An added node is appended and selected, and deleting it at once restores the graph. |
| `EditEffects.AcceptLeadsOn` | `ui/screens/builder-workspace.jsx:1437-1446` | An accepted step becomes the last successor of the node it was suggested for, which no longer goes nowhere; no other successors change. |
| `EditEffects.DuplicateCopiesChosen` | `ui/screens/builder-workspace.jsx:588-603` | Duplicating adds a copy of each chosen node, moved by 24 both ways, and no edge, if all are there; otherwise nothing changes. |
| `EditEffects.CopyTakesChosen` | `ui/screens/builder-workspace.jsx:605-615` | Copying puts the chosen nodes on the clipboard, if all are there, and changes nothing else. |
| `EditEffects.SwitchShowsDraft` | `ui/screens/builder-workspace.jsx:480-483` | Switching drafts shows the other graph, keeps pending source, multi-selection and clipboard, and selects a node of the draft if it has any. |
| `EditEffects.AiReplaceWalksInOrder` | `ui/screens/builder-workspace.jsx:376-403` | The planner's nodes become a path that walks in their order. |
| `Editor.MergeKeepsWellFormed` | `ui/screens/builder-workspace.jsx:944-957` | Merging swaps without a chain keeps the graph well formed. |
| `Editor.UndoThenRedoRestoresIff` | `ui/screens/builder-workspace.jsx:462-478` | k undos then k redos bring graph and stacks back exactly if k snapshots can be undone or nothing had been undone. |
| `EditEffects.ChangeEndsRedo` | `ui/screens/builder-workspace.jsx:408-417` | After an edit that changes the graph nothing can be redone: redo leaves the canvas as it is. |
| `EditEffects.OtherEditsKeepStacks` | `ui/screens/builder-workspace.jsx:408-417` | An edit that changes neither nodes nor edges keeps both stacks. |
| `EditEffects.UndoTakesBack` | `ui/screens/builder-workspace.jsx:408-478` | Undo takes back the last change, whatever edit made it, and redo brings it again. |
| `Editor.EditKeepsWellFormed` | `ui/screens/builder-workspace.jsx:405-635` | Each allowed edit other than undo and redo leaves distinct ids, closed edges, no self-loop and no parallel edges. |
| `Editor.CopiesAreNew` | `ui/screens/builder-workspace.jsx:593-600` | Adding copies under unused ids keeps the graph well formed and lists every new id. |
| `Editor.FindAll` | `ui/screens/builder-workspace.jsx:594-596` | What is found are nodes of the canvas with the selected ids, in order. |
| `Editor.Copies` | `ui/screens/builder-workspace.jsx:594-599` | Copies keep kind and configuration and take the new ids in order. |
| `Editor.PushKeepsGood` | `ui/screens/builder-workspace.jsx:408-417` | Recording a well-formed canvas keeps both stacks consistent and every snapshot well formed. |
| `History.UndosThenRedosIff` | `ui/screens/builder-workspace.jsx:462-478` | The same for the stacks alone. |
| `History.HistoryRef.PushHistory` | `ui/screens/builder-workspace.jsx:408-417` | Records a snapshot that differs from the last, drops the oldest beyond fifty and clears the future. |
| `Timeline.StacksFollowLine` | `ui/screens/builder-workspace.jsx:405-478` | After any run of recording, undo and redo, past and future are one line of snapshots with a place on it: recording cuts off what follows the place and keeps the newest fifty, undo and redo move the place and stop at the ends. |
| `Timeline.PastKeepsNewest` | `ui/screens/builder-workspace.jsx:408-417` | Without undo, the past is the newest fifty of the snapshots recorded, repetitions aside. |
| `History.HistoryRef.StepBack` | `ui/screens/builder-workspace.jsx:462-470` | Moves the top of the past to the future and shows the new top, if two are left. |
| `History.HistoryRef.StepForward` | `ui/screens/builder-workspace.jsx:471-478` | Moves the top of the future back and shows it. |
| `History.UndoRedo` | `ui/screens/builder-workspace.jsx:462-478` | One undo, then one redo, restores both stacks and the shown snapshot. |
| `History.HistoryRef.constructor` | `ui/screens/builder-workspace.jsx:406-407` | Both stacks start empty. |
| `LruCache.LruKeepsMostRecent` | `packages/forge-bridge/src/api.js:29-50` | After any run of gets and sets, for any maximum, the cache holds at most the maximum (at least one) of keys, its order is the order of last touch, and its keys are the most recently touched ones; a touch is a hit or the set of an absent key. |
| `LruCache.HitReturnsLastSet` | `packages/forge-bridge/src/api.js:29-50` | A hit returns the value last set under the key, expired once its time is up. |
| `LruCache.OverwriteIsNotATouch` | `packages/forge-bridge/src/api.js:45-50` | Overwriting a present key does not protect it from eviction. |
| `LruCache.OverwriteTouchesIff` | `packages/forge-bridge/src/api.js:29-50` | Along a run the map order is that of a cache where every set is a touch exactly when each overwrite hits the key that is last already. |
| `LruCache.LRUCache.Get` | `packages/forge-bridge/src/api.js:29-35` | A hit moves the key to the end. |
| `LruCache.LRUCache.Set` | `packages/forge-bridge/src/api.js:45-50` | A set evicts the oldest key of a full cache for a new key, and keeps the place of a present one. |
| `LruCache.GetKeepsTail` | `packages/forge-bridge/src/api.js:29-35` | After a hit the keys are still the most recently touched ones, in order. |
| `LruCache.SetKeepsTail` | `packages/forge-bridge/src/api.js:45-50` | After the set of an absent key they still are, the oldest evicted when the cache was full. |
| `LruCache.LRUCache.constructor` | `packages/forge-bridge/src/api.js:62-65` | A new cache is empty. |
| `LruCache.LRUCache.Has` | `packages/forge-bridge/src/api.js:69-69` | Asks for a key without touching it. |
| `LruCache.LRUCache.Delete` | `packages/forge-bridge/src/api.js:70-70` | Removes a key and keeps the order of the rest. |
| `LruCache.LRUCache.Clear` | `packages/forge-bridge/src/api.js:71-71` | Empties the cache. |
| `TokenRefresh.StepKeepsSingleFlight` | `packages/forge-bridge/src/api.js:143-193` | In every step at most one refresh is under way, exactly while the flag is set. |
| `TokenRefresh.StepKeepsQueue` | `packages/forge-bridge/src/api.js:128-141` | The queue holds exactly the waiting requests, each once, and is empty while no refresh is under way. |
| `TokenRefresh.SettledForever` | `packages/forge-bridge/src/api.js:143-193` | A settled request is never touched again. |
| `RefreshOutcomes.OutcomeIff` | `packages/forge-bridge/src/api.js:143-193` | On every run, a request has succeeded exactly if a success response came for it, and has failed exactly if another error came, or a 401 that it had been retried for or that cannot refresh, or the failure of a refresh that it led or waited for. |
| `RefreshOutcomes.StepSettlesIff` | `packages/forge-bridge/src/api.js:143-193` | The same for one event of an unsettled request. |
| `TokenRefresh.NoDeadlock` | `packages/forge-bridge/src/api.js:143-193` | While a request is unsettled some step is possible. |
| `RefreshBounds.RunsAreBounded` | `packages/forge-bridge/src/api.js:122-193` | In every interleaving of n requests: at most n refreshes, n(n+3)/2 sends, n + 1 sends of each request, and n(n+3) steps. |
| `RefreshBounds.BoundsAreAttained` | `packages/forge-bridge/src/api.js:122-193` | For every n some run of n requests takes n refreshes, n(n+3)/2 sends and n(n+3) steps: all fail, queue and lead in turn. |
| `RefreshBounds.StepKeepsLedger` | `packages/forge-bridge/src/api.js:143-193` | In every step, the leader of the k-th refresh accounts for at most k + 1 sends and twice as many steps. |
| `TokenRefresh.FinalRunsSettleAll` | `packages/forge-bridge/src/api.js:122-193` | A run that cannot go on has settled every request and emptied the queue. |
| `TokenRefresh.Interceptor.ProcessQueue` | `packages/forge-bridge/src/api.js:132-141` | Resolves or rejects every queued request and empties the queue. |
| `TokenRefresh.Interceptor.OnReply` | `packages/forge-bridge/src/api.js:143-167` | Passes a success on; on a 401 leads a refresh or queues behind one; turns down other errors, 401s of retried requests, and 401s that cannot refresh. |
| `TokenRefresh.Interceptor.OnRefreshSettled` | `packages/forge-bridge/src/api.js:168-189` | Drains the queue, resends or rejects the leader, and lowers the flag. |
| `TokenRefresh.StepCompletes` | `packages/forge-bridge/src/api.js:165-189` | The number of completed refreshes grows by one exactly when a refresh ends. |
| `TokenRefresh.StepKeepsBound` | `packages/forge-bridge/src/api.js:143-193` | In every step, no request has been sent more than once plus once for each refresh completed. |
| `TokenRefresh.StepProgresses` | `packages/forge-bridge/src/api.js:143-193` | Every step raises the total progress of the requests, so no run goes on forever. |
| `TokenRefresh.StepKeepsSafe` | `packages/forge-bridge/src/api.js:122-193` | Single flight, queue and send bounds hold together after every step. |
| `TokenRefresh.Interceptor.constructor` | `packages/forge-bridge/src/api.js:122-128` | No refresh is under way and the queue is empty. |
| `TokenRefresh.Interceptor.Transmit` | `packages/forge-bridge/src/api.js:161-161` | Sending counts one transmission and touches no other request. |
| `BridgeBus.BatchRefinesFold` | `packages/forge-bridge-integration/src/bridge-bus.js:184-226` | A batch without reset leaves the domains and errors that the single updates would leave; the version moves once instead of once per applied update. |
| `BusEffects.SignedInIff` | `packages/forge-bridge-integration/src/bridge-bus.js:176-252` | After any run, authentication is on exactly when the last enable, disable, reset or start that took effect is an enable. |
| `BusEffects.WriteIsReadableIff` | `packages/forge-bridge-integration/src/bridge-bus.js:134-158` | After any run, a write of a keyed topic is readable under its key and changes no other key, unless it is authenticated data on a started bus that is signed out: then nothing changes. |
| `BusEffects.SignInOpensGate` | `packages/forge-bridge-integration/src/bridge-bus.js:237-276` | From an enable until authentication is next decided, every keyed write is stored. |
| `BusEffects.SetStoresKey` | `packages/forge-bridge-integration/src/bridge-bus.js:267-276` | An accepted keyed write changes one key of one domain and nothing else. |
| `BusEffects.SetMergesRecord` | `packages/forge-bridge-integration/src/bridge-bus.js:267-276` | A write to a whole domain merges its record in, field by field. |
| `BusEffects.SwitchesKeepData` | `packages/forge-bridge-integration/src/bridge-bus.js:229-252` | Starting and signing in keep the store; signing out clears the authenticated domain and nothing else. |
| `BusEffects.OtherEventsStore` | `packages/forge-bridge-integration/src/bridge-bus.js:141-154` | The reset event restores every default and keeps the flags; an event that is not mapped stores nothing. |
| `BusEffects.PlacesApart` | `packages/forge-bridge-integration/src/bridge-bus.js:71-94` | No two keyed topics share a place. |
| `BusEffects.EnableReplaysHeld` | `packages/forge-bridge-integration/src/bridge-bus.js:237-245` | Signing in replays exactly the authenticated topics that hold data, each with that data. |
| `BusEffects.SetAnnouncesData` | `packages/forge-bridge-integration/src/bridge-bus.js:134-158` | A keyed write announces its data, stored or not, and then the store it leaves. |
| `BusEffects.ErrorIsRecorded` | `packages/forge-bridge-integration/src/bridge-bus.js:135-139` | An error is the newest in the log, changes no data, and goes to its channel, the wildcard and the change. |
| `BusEffects.BatchChangesOnce` | `packages/forge-bridge-integration/src/bridge-bus.js:217-225` | A batch announces one change, last, with the store it leaves, unless it applied nothing and met no error. |
| `BridgeBus.ErrorLogKeepsLast` | `packages/forge-bridge-integration/src/bridge-bus.js:279-282` | Both ways the log holds the last 100 errors reported. |
| `BridgeBus.EachEventOnce` | `packages/forge-bridge-integration/src/bridge-bus.js:188-206` | A batch announces exactly the events it applied and the errors it met, each once. |
| `BridgeBus.RejectedUpdateAnnounced` | `packages/forge-bridge-integration/src/bridge-bus.js:143-148` | With authentication off, a single set of authenticated data is not stored but still announced with its data; in a batch it is neither. |
| `BridgeBus.GateStaysShut` | `packages/forge-bridge-integration/src/bridge-bus.js:229-276` | On a started bus without reset(), in every run of operations, the authenticated domain is at its default whenever authentication is off. |
| `BridgeBus.ResetReopensGate` | `packages/forge-bridge-integration/src/bridge-bus.js:176-181` | After reset(), authenticated data written before the next start stays stored. |
| `BridgeBus.LateStartStrandsData` | `packages/forge-bridge-integration/src/bridge-bus.js:229-245` | Signing in before the first start: the start signs out but leaves the authenticated data stored. |
| `BridgeBus.GateHoldsIff` | `packages/forge-bridge-integration/src/bridge-bus.js:134-276` | On every run, resets included, the authenticated domain is at its default at every moment of being signed out exactly when each write is made while started or signed in, or leaves the defaults, and each start that signs out finds the defaults. |
| `BridgeBus.StepKeepsCleanIff` | `packages/forge-bridge-integration/src/bridge-bus.js:229-276` | The same for one operation. |
| `BridgeBus.BatchLeavesDefaultsIff` | `packages/forge-bridge-integration/src/bridge-bus.js:267-276` | A batch let through leaves the authenticated defaults exactly when every authenticated key it writes has a default and ends at null. |
| `BridgeBus.StartingFirstHoldsGate` | `packages/forge-bridge-integration/src/bridge-bus.js:176-234` | Resets are safe when the next start comes before any write or sign-in. |
| `BridgeBus.BridgeBus.Set` | `packages/forge-bridge-integration/src/bridge-bus.js:134-158` | The new store and the announcements of one update. |
| `BridgeBus.BridgeBus.DispatchBatch` | `packages/forge-bridge-integration/src/bridge-bus.js:184-226` | The new store and the announcements of a batch. |
| `BridgeBus.BridgeBus.EnableAuthenticated` | `packages/forge-bridge-integration/src/bridge-bus.js:237-245` | Turns authentication on, keeps the store, and announces what the authenticated domain holds, then the sign-in and the change. |
| `BridgeBus.BridgeBus.DisableAuthenticated` | `packages/forge-bridge-integration/src/bridge-bus.js:248-252` | Shuts the gate and clears the authenticated domain. |
| `BridgeBus.StepKeepsGateShut` | `packages/forge-bridge-integration/src/bridge-bus.js:229-276` | Every operation but reset() keeps the authenticated domain at its default while authentication is off. |
| `BridgeBus.BatchKeepsAuthed` | `packages/forge-bridge-integration/src/bridge-bus.js:267-270` | A batch on a started bus without authentication leaves the authenticated domain as it was. |
| `BridgeBus.BridgeBus.ApplyUpdates` | `packages/forge-bridge-integration/src/bridge-bus.js:184-206` | The loop over updates computes the next domains, the trimmed errors and the events to announce. |
| `BridgeBus.BridgeBus.EmitEvent` | `packages/forge-bridge-integration/src/bridge-bus.js:285-293` | An event is announced on its channel, errors on the wildcard too, and then the change. |
| `BridgeBus.BridgeBus.EmitBatch` | `packages/forge-bridge-integration/src/bridge-bus.js:219-225` | Errors are announced first, then data, then one change if there was any. |
| `BridgeBus.BridgeBus.constructor` | `packages/forge-bridge-integration/src/bridge-bus.js:99-105` | A new bus holds the defaults, unstarted. |
| `BridgeBus.BridgeBus.Start` | `packages/forge-bridge-integration/src/bridge-bus.js:229-234` | Starting twice is starting once, and starting shuts the gate. |
| `BridgeBus.BridgeBus.Reset` | `packages/forge-bridge-integration/src/bridge-bus.js:176-181` | Everything returns to the fresh state, started flag included. |
| `DataFetcher.RunsAreSound` | `packages/forge-bridge-integration/src/data-fetcher-v2.js:176-518` | On every run over a started bus: the slot counter equals the fetches under way and is at most three, the recorded timers are exactly the running ones, and the authenticated domain is at its default whenever authentication is off, however late results arrive. |
| `DataFetcher.StepKeepsGate` | `packages/forge-bridge-integration/src/data-fetcher-v2.js:301-308` | Late results, derived writes, starts, stops and demo mode all respect the gate. |
| `DataFetcher.StepKeepsTimers` | `packages/forge-bridge-integration/src/data-fetcher-v2.js:1136-1190` | Every operation keeps the recorded timers equal to the running ones. |
| `DataFetcher.StopAllLeavesNoTimer` | `packages/forge-bridge-integration/src/data-fetcher-v2.js:324-340` | Stopping everything leaves no timer running. |
| `DataFetcher.CalmRunsPollOnce` | `packages/forge-bridge-integration/src/data-fetcher-v2.js:114-205` | If no start takes effect while polling is paused, each source has at most one timer on every run. |
| `DataFetcher.PollOnceIff` | `packages/forge-bridge-integration/src/data-fetcher-v2.js:114-205` | On every run, each source has at most one timer at every moment exactly when the tab is never shown while a started group has recorded timers since the pause. |
| `DataFetcher.StepStartsOnceIff` | `packages/forge-bridge-integration/src/data-fetcher-v2.js:114-259` | The same for one event. |
| `DataFetcher.ResumeDuplicatesIff` | `packages/forge-bridge-integration/src/data-fetcher-v2.js:122-157` | On every run that ends paused, showing the tab again duplicates timers exactly when a started group has recorded timers since the pause. |
| `DataFetcher.HiddenStartDuplicates` | `packages/forge-bridge-integration/src/data-fetcher-v2.js:122-157` | Start publicly, hide the tab, start with authentication, show the tab: every authenticated source polled has two timers. |
| `DataFetcher.RunsAreTidy` | `packages/forge-bridge-integration/src/data-fetcher-v2.js:114-340` | On every run a stopped group has no timer, and a paused one at most those of one start. |
| `DataFetcher.StepKeepsTidy` | `packages/forge-bridge-integration/src/data-fetcher-v2.js:114-340` | Every event keeps this, starts while paused included. |
| `DataFetcher.BurstAdmitsFirst` | `packages/forge-bridge-integration/src/data-fetcher-v2.js:469-473` | A burst of fetches is admitted in order until the three slots are taken; the rest is dropped. |
| `DataFetcher.PublicStartAdmits` | `packages/forge-bridge-integration/src/data-fetcher-v2.js:176-200` | From any state, starting public polling admits the first of readiness (unless being checked), ticker, markets and proposals that find a slot; proposals are fetched exactly when all slots are free and readiness is being checked. |
| `FetchEffects.StepAdmits` | `packages/forge-bridge-integration/src/data-fetcher-v2.js:176-518` | Outside demo mode, every event fetches the first of what it asks for that find a slot, and touches no other fetch under way. |
| `FetchEffects.DemoFetchesNothing` | `packages/forge-bridge-integration/src/data-fetcher-v2.js:462-467` | Demo mode is for good, and from then on no fetch starts. |
| `FetchEffects.ReadinessOnce` | `packages/forge-bridge-integration/src/data-fetcher-v2.js:610-640` | While readiness is being checked, asking again changes nothing; afterwards the next request fetches it. |
| `FetchEffects.ResultIsReadable` | `packages/forge-bridge-integration/src/data-fetcher-v2.js:476-487` | A result is readable under its key at once, unless it is authenticated data and the bus is signed out; its slot stays taken until it settles. |
| `FetchEffects.PublicSourcesNeedNoSignIn` | `packages/forge-bridge-integration/src/data-fetcher-v2.js:176-200` | What public polling polls is stored without signing in; the proposals that it also fetches are not. |
| `FetchEffects.ErrorIsLogged` | `packages/forge-bridge-integration/src/data-fetcher-v2.js:503-513` | An error becomes the newest in the log and leaves all data as it was. |
| `FetchEffects.SettlingFrees` | `packages/forge-bridge-integration/src/data-fetcher-v2.js:491-493` | Settling gives back the slot of that fetch and of no other. |
| `FetchEffects.StartRecordsTimers` | `packages/forge-bridge-integration/src/data-fetcher-v2.js:176-259` | A start that takes effect records a timer for every polled source of its group, and signing in opens the bus. |
| `FetchEffects.StopThenStart` | `packages/forge-bridge-integration/src/data-fetcher-v2.js:301-317` | What was stopped can be started again, with the timers of one start. |
| `FetchEffects.HideThenShow` | `packages/forge-bridge-integration/src/data-fetcher-v2.js:114-157` | Hiding the tab stops every timer; showing it brings back those of the started groups and restores the flags. |
| `FetchEffects.StopAllDetaches` | `packages/forge-bridge-integration/src/data-fetcher-v2.js:324-340` | After stopping everything nothing is started, the bus is signed out, and the tab no longer matters. |
| `FetchEffects.DemoShowsData` | `packages/forge-bridge-integration/src/data-fetcher-v2.js:359-390` | Beginning demo mode signs in, keeps no public timer, and leaves each keyed datum it writes last readable. |
| `FetchEffects.FollowUpIsReadable` | `packages/forge-bridge-integration/src/data-fetcher-v2.js:990-1012` | A wallet balance derived from positions is written like a fetched one, if the bus is signed in or not started. |
| `DataFetcher.OneShotsAreAlwaysDropped` | `packages/forge-bridge-integration/src/data-fetcher-v2.js:221-259` | Starting authenticated polling fills every slot with its three timers, so its five immediate fetches never start, from any state. |
| `DataFetcher.FirstPublicStartDropsProposals` | `packages/forge-bridge-integration/src/data-fetcher-v2.js:176-200` | The first public start fetches readiness, ticker and markets, and drops proposals. |
| `DataFetcher.StepKeepsSlots` | `packages/forge-bridge-integration/src/data-fetcher-v2.js:462-494` | Every event keeps the slot counter equal to the fetches under way and at most three. |
| `DataFetcher.StepKeepsPolledOnce` | `packages/forge-bridge-integration/src/data-fetcher-v2.js:114-205` | Every event other than a start while paused keeps at most one timer for each source. |
| `DataFetcher.PollsAreDisjoint` | `packages/forge-bridge-integration/src/data-fetcher-v2.js:176-259` | The sources polled publicly and those polled with authentication never overlap. |
| `PollingClient.DataFetcherV2.FetchAndTransform` | `packages/forge-bridge-integration/src/data-fetcher-v2.js:462-474` | Admission of one fetch: none in demo mode, none beyond three. |
| `PollingClient.DataFetcherV2.StartInterval` | `packages/forge-bridge-integration/src/data-fetcher-v2.js:1136-1173` | An immediate fetch, then a recorded timer if the interval is positive. |
| `PollingClient.DataFetcherV2.ClearIntervalGroup` | `packages/forge-bridge-integration/src/data-fetcher-v2.js:1178-1190` | Stops and forgets every timer of a group. |
| `PollingClient.DataFetcherV2.StartPublicPolling` | `packages/forge-bridge-integration/src/data-fetcher-v2.js:176-205` | Once per start, and outside demo mode: readiness is checked, ticker and markets are fetched and given timers, then proposals are fetched. |
| `PollingClient.DataFetcherV2.StartAuthenticatedPolling` | `packages/forge-bridge-integration/src/data-fetcher-v2.js:221-259` | Once per start: three sources are fetched and given timers, five are fetched once, then the bus is opened. |
| `PollingClient.DataFetcherV2.StopEverything` | `packages/forge-bridge-integration/src/data-fetcher-v2.js:324-340` | Both groups stopped, authentication off, handler detached. |
| `PollingClient.DataFetcherV2.OnVisibilityChange` | `packages/forge-bridge-integration/src/data-fetcher-v2.js:114-157` | Hiding the tab clears both groups; showing it starts the started ones again. |
| `PollingClient.DataFetcherV2.BeginDemo` | `packages/forge-bridge-integration/src/data-fetcher-v2.js:359-390` | Public timers cleared, authentication enabled, demo data written. |
| `PollingClient.DataFetcherV2.OnError` | `packages/forge-bridge-integration/src/data-fetcher-v2.js:503-518` | The error is recorded and readiness checked while polling publicly. |
| `PollingClient.DataFetcherV2.constructor` | `packages/forge-bridge-integration/src/data-fetcher-v2.js:69-110` | A new client is idle. |
| `PollingClient.DataFetcherV2.RequestReadiness` | `packages/forge-bridge-integration/src/data-fetcher-v2.js:610-640` | Readiness is fetched at most once at a time. |
| `PollingClient.DataFetcherV2.StopAuthenticatedPolling` | `packages/forge-bridge-integration/src/data-fetcher-v2.js:301-308` | Timers of the group are cleared and authentication is turned off. |
| `PollingClient.DataFetcherV2.StopPublicPolling` | `packages/forge-bridge-integration/src/data-fetcher-v2.js:314-317` | Timers of the public group are cleared. |
| `PollingClient.DataFetcherV2.OnResult` | `packages/forge-bridge-integration/src/data-fetcher-v2.js:476-487` | A result is written through the gate of the bus, however late. |
| `PollingClient.DataFetcherV2.OnSettled` | `packages/forge-bridge-integration/src/data-fetcher-v2.js:491-493` | Settling gives the slot back. |

## Left out

- Listeners, subscriptions and the selection of what React renders; pointer, pan, zoom and keyboard handling.
- The allocation percentage that an edge may carry, and which step is suggested after a node.
- The wording of issues, gas estimates and the saved-at indicator.
- The cached GET with its background refresh and its time-to-live table, and the shape of normalised errors.
- The per-timer guard that skips a tick while the previous one is under way: ticks arrive as arbitrary fetch requests, which covers it.
- Jitter of polling intervals, demo data itself, and the transformers between responses and stored data.
- Sharing of objects between old and new snapshots of the bus; the store is a value.
- Spreading a string or an array into a whole domain of the bus: only records merge.
- Wallet, FHE SDK, contracts, backend, scripts and the Babel plugin.
- The connect interceptor, whose disconnect handler emits the event it handles; a disconnect is one DisableAuthenticated step.
