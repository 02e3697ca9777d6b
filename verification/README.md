# The core of a routing engine: search, hierarchy, storage and index

A model of the search and index core of a road-routing engine, with proofs that it answers
correctly. The modules follow the source: one per component, with a class where the source updates
an object in place and functions where it computes.

**Contraction hierarchies.** `PrepareGraph`, `WitnessTree`, `WitnessSearch`, `Contraction`,
`ShortcutTables`, `ContractionState`, `NodeContractor`, `CHStorage`, `Hierarchy`, `Ordering` and
`PrepareCH` contract a road network node by node; `UpwardGraph`, `CHSearch`, `CHQuery`, `Unpack` and
`CHRouting` search the result and unpack the answer. The result is exact for every network, every
priority and every pair of nodes, with stalling and with A*. `PartialHierarchy` shows how many nodes
may be left.

**Bidirectional search.** `Walks`, `RoutingGraph`, `SearchTree`, `Meetings`, `SearchRun`,
`BidirSearch`, `AStar` and `Paths`: Dijkstra and A* from both ends with lazy deletion and the stop
rule on the last popped weights. `SearchRun` says what a run of any bidirectional search is; the
methods are proved to make such runs, and the theorems hold for all of them. `AStarLimits` decides
for which estimates A* is exact.

**Heaps.** `HeapOrder`, `MinHeap` and `BinaryHeap` are the two hand-written heaps, on their arrays.

**Strongly connected components.** `Connectivity`, `Tarjan`, `EdgeComponents` and `TarjanSearch`:
Tarjan's algorithm on edge keys, recursively and on an explicit stack of encoded steps.

**Stored structures.** `SortedLists`, `ByteCodec` and `BTree`; `Permutations`, `GraphStore` and
`GraphSort`; `TurnCosts`. Ordered maps, adjacency lists threaded through edge records, sorting in
place along the cycles of a permutation, and chains of turn costs.

**Space.** `Hilbert`, `SpatialKeys`, `LineIndex`, `LocationIndex`,
`RamerDouglasPeucker` and `PathSimplification`.

**Query graph and custom weights.** `QueryOverlay` and `CustomWeighting`.

`dafny verify dfyconfig.toml` checks the whole project.

## What is assumed

- Weights, priorities, speeds and coordinates are real numbers, not negative where the source
  demands it. Nothing is said about rounding.
- The priority of a node depends only on the node and on how many nodes are contracted. With a
  priority that changes while nothing is contracted, the lazy loop need not end.
- Searches have no limit on visited nodes and no timeout. The witness search has its limit.
- A priority queue of search entries gives a lightest entry; which of several does not matter.
- Points of a path have a distance from a chord that is not negative. Snaps come sorted by their
  place on the edge, and a point is taken to be the same as itself.

## Where the code does not do what one might expect

Each is proved with an input that shows it, and with the exact condition under which the code is
right.

- Strongly connected components (`EdgeComponents.SearchExact`, `TarjanSearch.TriangleIsTakenApart`):
  a backward key that is searched on its own is started at its tail. This is harmless exactly if no
  such key lies on a cycle with others, and so wherever u-turns are allowed
  (`TarjanSearch.FoundWithUTurns`).
- B-tree (`BTrees.PutThenGet`, `BTrees.TooSmallIsAccepted`): only values that are too large are
  refused. A value is read back exactly if it is in the signed range of its bytes.
- Custom weights (`CustomWeightings.MinWeightIff`, `CustomWeightings.ClampCutsTheBound`): the bound
  on the speed is clamped, the speed is not. The least weight is a lower bound for an edge exactly
  if its speed times its priority stays within the maxima.
- A* (`AStarLimits.SearchExactIff`, `AStarLimits.SearchMissesWay`): the stop offset accounts for the
  slack of the forward estimate only. A* is exact on every network exactly if the forward estimate
  at the target is at most twice the slack.
- A* on the hierarchy (`AStarLimits.QueryExactIff`, `AStarLimits.QueryMissesWay`): unlike the plain
  one it has no stop offset. It is exact on every hierarchy exactly if neither estimate is positive
  at its own target.
- Nodes to spare (`PrepareContraction.Prepare`, `PartialHierarchies.SpareTooMany`): the shortcuts
  between nodes that are left are never stored. The prepared hierarchy is complete on every network
  exactly if at most two nodes are to be spared, which leaves at most one.
- Spatial keys (`SpatialKeys.EncodeDecode`, `SpatialKeys.FarCellsShareKeys`): up to 48 bits are
  accepted, but only 16 of each coordinate are encoded.
- Turn costs (`TurnCosts.TurnCostStorage.FindIndex`, `TurnCosts.LastTurnIsNotFound`): reading gives
  up after a thousand entries of a node, writing does not.

## Model

| member | source | states |
|---|---|---|
| CHRouting.PrepareAndRoute | core/routing/ch/prepare_contraction_hierarchies.go:151-176 | for every road network, every priority and every pair of nodes, and with one node left uncontracted or none: contraction in the lazily updated order, the stalled upward query and unpacking together return the exact base-graph distance, with the edges of a base walk of that weight, or that there is none |
| CHRouting.CalcPath | core/routing/abstract_bidir_ch_algo.go:97-99 | on any finished hierarchy a query with estimates that fit the base arcs returns what a run of the search finds, always a base walk of its weight; it is the base distance if the estimates are not positive at their ends, and a finding of no path is always right; stalling is allowed when the estimates are zero |
| CHRouting.CalcPathDijkstra | core/routing/dijkstra_bidirection_ch.go:13-29 | the query with stalling on demand answers every pair of nodes exactly |
| CHRouting.CalcPathAStar | core/routing/astar_bidirection_ch.go:20-61 | with any consistent approximators the A* query returns what a run of the search finds, always a base walk of its weight; it is exact if both approximators are zero or less at their own targets |
| AStarLimits.QueryExactIff | core/routing/astar_bidirection_ch.go:49-61 | for given values of the two estimates at their own targets: A* is exact on every hierarchy, for every pair of nodes, all consistent estimates with these values and every run, if and only if neither value is positive |
| AStarLimits.QueryMissesWay | core/routing/abstract_bidir_ch_algo.go:227-233 | the failing family: for every positive value of the one estimate and any value of the other, a hierarchy of five nodes on which a run stops at a heavy edge beside a lighter way |
| CHRouting.BalancedFits | core/routing/astar_bidirection_ch.go:49-61 | consistent approximators give estimates that fit every base arc of a hierarchy; what they add at their own targets is not positive if and only if neither approximator is positive there |
| CHRouting.FindsDistance | core/routing/astar_bidirection_ch.go:20-61 | every run that ends on consistent estimates of zero or less at their own targets has found the base distance |
| CHRouting.ExtractedWalk | core/routing/ch/node_based_ch_bidir_path_extractor.go:31-48 | the extracted edges are the edges of a base walk from source to target of exactly the weight of the meeting |
| CHRouting.NodeBasedCHBidirPathExtractor.Extract | core/routing/ch/node_based_ch_bidir_path_extractor.go:31-91 | the path lists the base edges of the forward labels in order, then those of the backward labels turned round |
| CHRouting.SameNetwork | core/routing/ch/prepare_graph.go:59-73 | the arcs a hierarchy is prepared from are the steps the plain search takes, so both answer about the same network |
| CHQueries.StoppedAnswers | core/routing/abstract_bidir_ch_algo.go:216-233 | a stopped query whose estimates are not positive at their ends has found a lightest base walk, or there is none; one that found nothing is right in any case |
| CHQueries.NoLighter | core/routing/dijkstra_bidirection_ch.go:31-44 | when the query stops no base walk is lighter than the meeting found; by induction on the weight in units of the stall precision |
| CHQueries.UpDownBound | core/routing/abstract_bidir_ch_algo.go:227-306 | when the query stops, every up-down walk weighs as much as the meeting, or the base graph has a walk that is lighter by the stall precision |
| CHQueries.BidirCHSearch.Run | core/routing/abstract_bidir_ch_algo.go:216-263 | the loop over both sides ends, and what it leaves is the outcome of a run: pops of lightest entries, stalled or expanded over the offered edges in their order, until the stop test holds after a round |
| CHQueries.Request.OutcomeAnswers | core/routing/abstract_bidir_ch_algo.go:216-263 | every run of a query on a finished hierarchy that ends has the answer, whichever of several lightest entries it pops |
| CHQueries.Request.AdvanceSound | core/routing/abstract_bidir_ch_algo.go:235-263 | a step of one direction keeps both searches sound: what is settled is expanded, or a base walk beats its label by the stall precision |
| CHSearch.FillEdges | core/routing/abstract_bidir_ch_algo.go:275-318 | the iteration relaxes exactly the listed edges the level filter accepts, one after the other |
| CHSearch.FillOk | core/routing/abstract_bidir_ch_algo.go:275-318 | relaxing them leaves every upward edge of the node relaxed, every label a walk of its weight, the labels of settled nodes as they were, and the best meeting no heavier than any two labels that meet |
| CHSearch.EntryIsStallable | core/routing/dijkstra_bidirection_ch.go:31-44 | an entry is reported stallable if and only if an edge from a labelled higher node, other than the one it was reached over, beats it by more than the precision |
| CHSearch.StallBeats | core/routing/dijkstra_bidirection_ch.go:31-44 | the label of a stalled entry is above the weight of some base walk to its node, by more than the precision |
| UpwardGraphs.UpAdjacencyOk | core/routing/abstract_bidir_ch_algo.go:541-551 | what the level filter leaves is a network to search: its ends exist, its ids are distinct and its weights not negative, whether edge or shortcut |
| NodeContractors.NodeBasedNodeContractor.ContractNode | core/routing/ch/node_based_node_contractor.go:108-113 | contracting a node keeps the distance of every pair of other nodes, keeps every base walk routed over the hierarchy so far, and returns exactly the neighbours the node had, none of them contracted |
| Contraction.ContractionKeepsDistances | core/routing/ch/node_based_node_contractor.go:210-248 | if every pair over the node has a shortcut or a witness, all distances between other nodes are the same without the node |
| Contraction.WalkAround | core/routing/ch/node_based_node_contractor.go:210-248 | every walk over a contractible node has one around it that is no heavier |
| Contraction.CompleteStep | core/routing/ch/node_based_node_contractor.go:108-113 | every base walk stays routable up, on through the remaining core and down again when a node leaves the core |
| Contraction.CompleteEnd | core/routing/ch/node_based_node_contractor.go:108-113 | when no node is left, every base walk has an up-down walk that is no heavier |
| ContractionStates.PairAdded | core/routing/ch/node_based_node_contractor.go:255-269 | a new shortcut bypasses its pair and keeps the invariant of the contraction |
| ContractionStates.PairReplaced | core/routing/ch/node_based_node_contractor.go:255-269 | so does one that takes the place of a heavier shortcut between the same nodes |
| ContractionStates.PairWitnessed | core/routing/ch/node_based_node_contractor.go:210-248 | a walk around the node that is no heavier than the pair bypasses it without a shortcut |
| ContractionStates.NodeContracted | core/routing/ch/node_based_node_contractor.go:108-113 | from all pairs bypassed, all shortcuts stored and the node disconnected: the preparation invariant holds again and the contraction kept distances |
| NodeContractors.NodeBasedNodeContractor.FindAndHandleShortcuts | core/routing/ch/node_based_node_contractor.go:210-248 | every pair of an edge into and an edge out of the node is bypassed afterwards, although shortcuts are added while one witness tree serves several pairs; counting changes nothing, counts no pair twice and none that leads back, and the pairs it does not count are bypassed |
| NodeContractors.NodeBasedNodeContractor.AddOrUpdateShortcut | core/routing/ch/node_based_node_contractor.go:255-269 | the pair is bypassed: a shortcut is added if there is none between the two nodes, else the first one in the list leads over the pair from now on if that is lighter, and nothing changes if it is not |
| NodeContractors.NodeBasedNodeContractor.HandlePair | core/routing/ch/node_based_node_contractor.go:210-248 | one pair is skipped exactly when it leads back or the search for detours has come to its other end with no more than its weight, and then nothing changes; unless that search hit its limit, a pair that is not skipped had no detour, and it is counted once or a shortcut over it is offered |
| NodeContractors.NodeBasedNodeContractor.HasWitness | core/routing/ch/node_based_node_contractor.go:210-248 | a witness is a walk around the node that is no heavier than the pair; unless the search hit its limit, there was none in the graph it was begun in when it reports none |
| NodeContractors.NodeBasedNodeContractor.InsertOutShortcuts | core/routing/ch/node_based_node_contractor.go:154-171 | the shortcuts out of the node are collected one by one, in the order of its list, with the edges they lead over |
| NodeContractors.NodeBasedNodeContractor.InsertInShortcuts | core/routing/ch/node_based_node_contractor.go:173-208 | each shortcut into the node is added once, with its skipped edges the other way round: merged with one out of it that leads back over the same stored edges with the same weight, or on its own; nothing is left that could be merged |
| NodeContractors.NodeBasedNodeContractor.InsertShortcuts | core/routing/ch/node_based_node_contractor.go:132-152 | what was collected is stored one after the other, and every preparation shortcut at the node knows the one it became |
| NodeContractors.NodeBasedNodeContractor.CalculatePriority | core/routing/ch/node_based_node_contractor.go:99-106 | the priority is the weighted number of pairs counted, less the edges of the node, plus the weighted number of original edges behind these pairs; the graph, the tables and the levels stay as they are |
| ShortcutTables.AddedOk | core/routing/ch/node_based_node_contractor.go:255-269 | a shortcut added over two edges of the contracted node keeps all tables in correspondence, original edge counts included |
| ShortcutTables.ReplacedOk | core/routing/ch/node_based_node_contractor.go:255-269 | so does letting a shortcut lead over another pair |
| ShortcutTables.StoreOk | core/routing/ch/node_based_node_contractor.go:132-152 | storing a collected shortcut keeps the correspondence: every stored shortcut leads over older edges with its weight in each open direction |
| ShortcutTables.CollectedLeads | core/routing/ch/node_based_node_contractor.go:173-208 | both directions of a merged shortcut lead over the same two stored edges, each with the weight of the shortcut |
| ShortcutTables.DisconnectedOk | core/routing/ch/prepare_graph.go:178-222 | once its shortcuts are stored, disconnecting the node keeps the correspondence |
| WitnessSearch.NodeBasedWitnessPathSearcher.Init | core/routing/ch/node_based_witness_path_searcher.go:36-42 | a new search starts from the start node and avoids the contracted one, whatever the search before left behind |
| WitnessSearch.NodeBasedWitnessPathSearcher.FindUpperBound | core/routing/ch/node_based_witness_path_searcher.go:46-78 | a finite bound is the weight of a walk around the contracted node, however many targets the same tree has served and wherever the search was cut off; unless the limit was hit, a bound above the accepted weight means that every such walk in the graph in which the tree was begun is heavier, although shortcuts were added since |
| WitnessTrees.AllFound | core/routing/ch/node_based_witness_path_searcher.go:46-78 | when only heavier keys are left, every walk of at most the accepted weight ends in a node polled with no more than its weight |
| WitnessTrees.Improved | core/routing/ch/node_based_witness_path_searcher.go:63-71 | a node that gets lighter takes its heap entry along or was polled before, when the update does nothing; what is known of the tree stays true in both cases |
| PrepareGraphs.CHPreparationGraph.AddEdge | core/routing/ch/prepare_graph.go:83-105 | adds exactly the arcs of the open directions |
| PrepareGraphs.CHPreparationGraph.AddShortcut | core/routing/ch/prepare_graph.go:107-122 | adds exactly one arc, under a new id |
| PrepareGraphs.CHPreparationGraph.Replace | core/routing/ch/prepare_graph.go:556-562 | changes exactly the arc of one shortcut, and what it leads over |
| PrepareGraphs.CHPreparationGraph.Disconnect | core/routing/ch/prepare_graph.go:178-222 | leaves exactly the arcs that avoid the node, and returns its neighbours |
| PrepareContraction.BuildFromGraph | core/routing/ch/prepare_graph.go:59-73 | the arcs of the new graph are those of the base graph, and each edge counts as one original edge |
| CHStorages.CHStorage.AddShortcutNodeBased | core/storage/ch_storage_builder.go:31-36 | appends a shortcut and keeps the shortcuts of every node in one run |
| CHStorages.RunContiguous | core/storage/ch_storage_builder.go:54-79 | between the first and the last shortcut of a node there are no others |
| CHStorages.CHStorage.ReplaceSkippedEdges | core/storage/ch_storage_builder.go:45-52 | every skipped preparation edge is replaced by the stored edge it became |
| CHStorages.CHGraph.ListingExact | core/storage/routing_ch_edge_iterator_impl.go:83-121 | the run of shortcuts followed by the base edges is exactly what a node offers in a direction |
| CHStorages.RoutingCHEdgeIterator.Next | core/storage/routing_ch_edge_iterator_impl.go:95-121 | each call gives the next edge of that listing, until none is left |
| PrepareContraction.PrepareContractionHierarchies.ContractNodesUsingHeuristicNodeOrdering | core/routing/ch/prepare_contraction_hierarchies.go:223-309 | the loop with lazy, periodic and neighbour updates ends, and the levels are those of a run of the order from the graph it began with: in every step a node of least stored priority goes back or gets the next level, all distances between other nodes are kept, and its neighbours are brought up to date; exactly one node fewer is left than are to be spared, or as many as one contraction leaves |
| PrepareContraction.PrepareContractionHierarchies.PollNode | core/routing/ch/prepare_contraction_hierarchies.go:256-268 | a node of least stored priority is polled; it goes back with its present priority exactly if some others are left, fewer than the given number, and it has become dearer than one of them, which makes one fewer that is out of date |
| PrepareContraction.PrepareContractionHierarchies.UpdatePrioritiesOfRemainingNodes | core/routing/ch/prepare_contraction_hierarchies.go:346-357 | the queue holds exactly the nodes not contracted, each with its present priority |
| PrepareContraction.PrepareContractionHierarchies.UpdateNeighbors | core/routing/ch/prepare_contraction_hierarchies.go:279-289 | of the neighbours that are drawn all are brought up to date, or as many as the limit allows, and no other stored priority changes; each of them is in the queue, so updating it never fails |
| PrepareContraction.PrepareContractionHierarchies.ContractNext | core/routing/ch/prepare_contraction_hierarchies.go:241-290 | one round is a step of the order: from the periodic update over the polled node to its neighbours, which are those it had in the graph; it ends the order exactly when it contracts a node and fewer are left than are to be spared |
| PrepareContraction.PrepareContractionHierarchies.UpdateNeighbor | core/routing/ch/prepare_contraction_hierarchies.go:284-286 | the stored priority of the neighbour becomes its present one, and nothing else changes |
| PrepareContraction.PrepareContractionHierarchies.ContractNode | core/routing/ch/prepare_contraction_hierarchies.go:327-336 | the node gets the next level, the hierarchy stays sound, distances between other nodes are kept, and the neighbours the node had are returned |
| PrepareContraction.PrepareContractionHierarchies.ContractNodesUsingFixedNodeOrdering | core/routing/ch/prepare_contraction_hierarchies.go:311-325 | the i-th node of the order gets level i |
| PrepareContraction.PrepareContractionHierarchies.FinishContraction | core/routing/ch/node_based_node_contractor.go:115-117 | what is stored is a finished hierarchy, and every edge in it unpacks to as many base edges as it counts |
| PrepareContraction.Prepare | core/routing/ch/prepare_contraction_hierarchies.go:151-176 | for every priority, number of updates and draw of neighbours: the levels are those of a run of the order from the arcs of the base graph, the number of nodes left follows from the number to spare, and if that is at most two, the prepared hierarchy has an up-down walk for every base walk, no heavier, and can be unpacked |
| Orderings.OrderRules.StepInOrder | core/routing/ch/prepare_contraction_hierarchies.go:241-290 | with such priorities no polled node goes back, what is stored stays present, and a contracted node is at most as dear as all that are left |
| Orderings.OrderRules.OutcomeInOrder | core/routing/ch/prepare_contraction_hierarchies.go:223-290 | with priorities that do not change, every run of the order, however often they are brought up to date, contracts the nodes in the order of their priorities |
| PartialHierarchies.SpareTooMany | core/routing/ch/prepare_contraction_hierarchies.go:274-277 | for every number to spare above two there is a network on which the hierarchy prepared with any priorities makes a query find nothing although there is a walk |
| PartialHierarchies.QueryFindsNothing | core/routing/abstract_bidir_ch_algo.go:541-551 | on a roundabout with one node contracted the query from the node before it to the node behind it finds nothing, whatever is stored, although a walk of two edges leads there |
| PrepareContraction.PrepareInOrder | core/routing/ch/prepare_contraction_hierarchies.go:142-149 | the same for every order of the nodes, with the levels of that order |
| Hierarchies.LastLevel | core/routing/ch/prepare_contraction_hierarchies.go:327-344 | after full contraction the levels are a bijection onto the numbers below the node count |
| Hierarchies.Finished | core/routing/ch/node_based_node_contractor.go:115-117 | with an empty core and mapped skipped edges the stored graph is a hierarchy |
| Unpacking.UnfoldedWalk | core/routing/ch/shortcut_unpacker.go:44-92 | unpacking ends, because skipped edges are older, and gives a base walk between the ends of the edge of exactly its weight |
| Unpacking.UnfoldedBackwards | core/routing/ch/shortcut_unpacker.go:76-92 | from the other end, merged shortcuts included, come the same edges in the opposite order |
| Unpacking.OriginalEdgeCount | core/routing/ch/node_based_node_contractor.go:255-269 | an edge of the preparation, merged shortcuts included, unpacks to exactly as many base edges as its original edge count says |
| Unpacking.BaseCovers | core/routing/ch/shortcut_unpacker.go:44-54 | every arc of the hierarchy stands for a base walk of at most its weight, so it offers no shorter way than the base graph |
| Unpacking.ShortcutUnpacker.VisitOriginalEdges | core/routing/ch/shortcut_unpacker.go:35-42 | visits exactly the base edges an edge stands for, in either order |
| Unpacking.ShortcutUnpacker.SkippedEdges | core/storage/routing_ch_edge_state_impl.go:32-53 | seen from either end, the first skipped edge leads from the base node to the middle and the second one on |
| BidirSearches.CalcPath | core/routing/abstract_bidir_algo.go:98-100 | for every graph with weights that are not negative and every potential that fits its arcs: the outcome of a run, always a walk of its weight, given by its edges; the distance if the stop offset allows for the constant the potentials add up to, and a finding of no path is always right |
| BidirSearches.Request.StopsAtDistance | core/routing/abstract_bidir_algo.go:206-225 | when a search with enough offset stops, its best weight is the distance |
| BidirSearches.Request.OutcomeAnswers | core/routing/abstract_bidir_algo.go:206-257 | every run that ends has the answer, whichever of several lightest entries it pops |
| BidirSearches.Request.AdvanceSound | core/routing/abstract_bidir_algo.go:227-257 | a step of one direction keeps all labels walks of their weights, everything settled expanded, and the best path no heavier than any two labels that meet |
| BidirSearches.BidirSearch.Run | core/routing/abstract_bidir_algo.go:206-257 | the loop ends, and what it leaves is the outcome of a run: both directions pop lightest entries and relax the edges of their nodes in turn, until the stop test holds after a round |
| Meetings.StopBound | core/routing/abstract_bidir_algo.go:217-225 | when the last popped weights add up to the best weight, plus the constant of the potentials, no walk is lighter |
| Meetings.ExhaustedBound | core/routing/abstract_bidir_algo.go:227-257 | when one side has nothing left to pop, the best weight is at most that of every walk |
| Meetings.MeetingBound | core/routing/abstract_bidir_algo.go:322-347 | the best weight is at most the sum of the two labels of any node labelled on both sides |
| Meetings.ImproveOk | core/routing/abstract_bidir_algo.go:259-302 | an improved label keeps all invariants of both sides, and the best weight never rises |
| Meetings.FillOk | core/routing/abstract_bidir_algo.go:259-302 | relaxing the edges of a popped node one after the other leaves each of them relaxed, every label a walk of its weight, and the best path no heavier than any two labels that meet |
| SearchTrees.PopsOk | core/routing/abstract_bidir_algo.go:227-241 | what is popped is the label of a node not settled before, however many superseded entries are dropped on the way, and nothing that is open is lighter |
| Paths.Extract | core/routing/default_bidir_path_extractor.go:34-89 | the edges of the forward labels in order, then those of the backward labels turned round, from root to root |
| AStar.CalcPathAStar | core/routing/astar_bidirection.go:45-66 | with any consistent approximators bidirectional A* returns what a run of the search finds, always a walk of its weight; it is exact if the forward estimate at the target is at most twice the slack |
| AStarLimits.SearchExactIff | core/routing/astar_bidirection.go:45-55 | for a given forward estimate at the target and a given slack: A* is exact on every network, for every pair of nodes, all consistent estimates with this value and slack and every run, if and only if the estimate is at most twice the slack |
| AStarLimits.SearchMissesWay | core/routing/astar_bidirection.go:50-55 | the failing family: for every estimate above twice the slack, a network of five nodes on which a run stops at a heavy edge beside a lighter way |
| AStar.BalancedFits | core/routing/weighting/balanced_weight_approximator.go:46-63 | on every network consistent approximators give estimates that add up to the same constant at every node and fit every arc; the stop offset allows for that constant if and only if the forward estimate at the target is at most twice the slack |
| AStar.FindsDistance | core/routing/astar_bidirection.go:45-55 | every run that ends has found the distance if the forward estimate at the target is at most twice the slack |
| AStar.CalcPathDijkstra | core/routing/abstract_bidir_algo.go:206-225 | without estimates the search is exact on every graph |
| AStar.BalancedWeightApproximator.SetFromTo | core/routing/weighting/balanced_weight_approximator.go:46-51 | the offsets make each estimate half of the one-sided one at its own target |
| MinHeaps.MinHeapWithUpdate.Push | core/routing/ch/min_heap_with_update.go:38-51 | adds one id with its value; tree and positions stay inverse to each other |
| MinHeaps.MinHeapWithUpdate.Update | core/routing/ch/min_heap_with_update.go:58-71 | changes the value of one id |
| MinHeaps.MinHeapWithUpdate.Poll | core/routing/ch/min_heap_with_update.go:76-87 | removes an id of least value |
| MinHeaps.MinHeapWithUpdate.Clear | core/routing/ch/min_heap_with_update.go:89-94 | empties the heap, which can be filled again |
| BinaryHeaps.IntFloatBinaryHeap.Insert | core/routing/ch/int_float_binary_heap.go:49-57 | adds exactly one element with its key, growing the arrays when they are full |
| BinaryHeaps.IntFloatBinaryHeap.Update | core/routing/ch/int_float_binary_heap.go:29-47 | gives one entry of the element the new key, and does nothing when there is none |
| BinaryHeaps.IntFloatBinaryHeap.Poll | core/routing/ch/int_float_binary_heap.go:73-82 | removes exactly one entry of least key |
| BinaryHeaps.RootIsMinimum | core/routing/ch/int_float_binary_heap.go:66-71 | the entry at the root is in the heap and its key is the least |
| TarjanSearch.FindComponents | core/routing/subnetwork/edge_based_tarjan_scc.go:105-107 | for every network and transition filter: the lists and flags are the strongly connected components exactly if every leftover backward key is a component of its own; in any case they are the components once the transitions out of leftover keys are cut |
| TarjanSearch.FindComponentsRecursive | core/routing/subnetwork/edge_based_tarjan_scc.go:110-112 | the same of the recursive version |
| TarjanSearch.FoundWithUTurns | core/routing/subnetwork/edge_based_tarjan_scc.go:202-223 | where a turn onto a key is allowed only together with the u-turn onto it, what is returned are the strongly connected components |
| TarjanSearch.SamePartition | core/routing/subnetwork/edge_based_tarjan_scc.go:105-112 | each component of one version is one of the other |
| TarjanSearch.EdgeBasedTarjanSCC.StartSearch | core/routing/subnetwork/edge_based_tarjan_scc.go:225-257 | the loop over the explicit stack ends and has done what the recursion does |
| TarjanSearch.DecodeEncoded | core/routing/subnetwork/edge_based_tarjan_scc.go:263-312 | a step on the stack whose keys and nodes are not negative is read back from its encoding with sentinels |
| TarjanSearch.EdgeBasedTarjanSCC.BuildComponent | core/routing/subnetwork/edge_based_tarjan_scc.go:169-198 | a component is popped exactly when the key is the first found of it, and reported as a list or a flag |
| EdgeComponents.SearchExact | core/routing/subnetwork/edge_based_tarjan_scc.go:202-223 | the search over all edges gives the components if and only if no leftover backward key lies on a cycle with another key |
| EdgeComponents.SearchFinds | core/routing/subnetwork/edge_based_tarjan_scc.go:202-223 | in any case it gives the components of the transitions without those out of leftover keys |
| EdgeComponents.UTurnsSuffice | core/routing/subnetwork/edge_based_tarjan_scc.go:211-223 | if u-turns are allowed, every leftover key is a component of its own |
| Tarjan.VisitOk | core/routing/subnetwork/edge_based_tarjan_scc.go:136-150 | a visit emits complete components only, and leaves the lowest index that is reached |
| TarjanSearch.TriangleTransitions | core/routing/subnetwork/edge_based_tarjan_scc.go:114-116 | a network of three edges without u-turns has the transitions of the counterexample |
| TarjanSearch.TriangleIsTakenApart | core/routing/subnetwork/edge_based_tarjan_scc.go:211-223 | there the search takes a component of three keys apart: it starts the backward key at the wrong end |
| BTrees.GHLongLongBTree.Put | core/coll/gh_long_long_btree.go:62-83 | the contents are the old ones with the value under the key, the old value is returned, and the size grows by one for a new key |
| BTrees.GHLongLongBTree.Get | core/coll/gh_long_long_btree.go:85-87 | the value under the key, or the empty value |
| BTrees.GHLongLongBTree.Optimize | core/coll/gh_long_long_btree.go:107-111 | changes nothing that can be observed |
| BTrees.PutEntry | core/coll/gh_long_long_btree.go:185-256 | a node with the value put in: keys in order, all leaves at the same depth, split at the middle when it is full |
| BTrees.GetEntry | core/coll/gh_long_long_btree.go:291-301 | finds what the ordered contents hold for the key |
| BTrees.CompactOk | core/coll/gh_long_long_btree.go:339-365 | compacting keeps the contents and the shape of every node |
| BTrees.BinarySearch | core/coll/gh_long_long_btree.go:140-158 | the index of the key, or where it belongs |
| BTrees.PutThenGet | core/coll/gh_long_long_btree.go:62-87 | a value is read back if and only if it fits the bytes per value; no other key is affected |
| BTrees.TooSmallIsAccepted | core/coll/gh_long_long_btree.go:62-66 | only large values are refused: -200 is accepted in one byte and read back as 56 |
| ByteCodecs.RoundTrip | core/coll/gh_long_long_btree.go:113-138 | a value is read back from its bytes if and only if it is in their signed range |
| Permutations.Permute | core/storage/base_graph_nodes_and_edges.go:453-476 | following the cycles in place moves every record to its place, changed by the store step once |
| GraphStores.BaseGraphNodesAndEdges.Edge | core/storage/base_graph_nodes_and_edges.go:190-228 | a new edge comes first in the lists of its two ends; all other lists stay |
| GraphStores.BaseGraphNodesAndEdges.SortEdges | core/storage/base_graph_nodes_and_edges.go:453-486 | for every permutation the list of each node is the image of its old list, and each record is at its new place with its links mapped |
| GraphStores.BaseGraphNodesAndEdges.RelabelNodes | core/storage/base_graph_nodes_and_edges.go:526-558 | for every permutation each node takes its record and its list along, and the ends of all edges follow |
| GraphStores.BaseGraphNodesAndEdges.EdgesOf | core/storage/edge_iterator_impl.go:28-60 | the links of a node lead through exactly its edges, each once, and end |
| GraphSorting.BuildEdgeOrder | core/storage/graph_sort.go:41-56 | the order of the edges has each of them once, as they are first met: an edge stands before another exactly if it touches an earlier node of the order, or if both are first met at the same node and it comes first in the list of that node |
| GraphSorting.MetBeforeOnce | core/storage/graph_sort.go:41-56 | of two edges at most one is met before the other |
| GraphSorting.InvertPermutation | core/storage/graph_sort.go:77-83 | gives the place of each number, again a permutation |
| GraphSorting.SortGraph | core/storage/graph_sort.go:17-65 | for every order of the nodes: an isomorphic graph in which each node has the images of its edges in the same sequence, and an edge is renumbered before another exactly if it is met before it |
| TurnCosts.TurnCostStorage.FindOrCreateEntry | core/storage/turn_cost_storage.go:82-109 | the entry of the turn, appended to the chain of its node when missing; no other node is affected |
| TurnCosts.TurnCostStorage.Set | core/storage/turn_cost_storage.go:224-230 | the value of exactly one turn changes |
| TurnCosts.CostAfterSet | core/storage/turn_cost_storage.go:224-230 | that turn has the new value, from zero when it had none, and every other turn of the node the old one |
| TurnCosts.TurnCostStorage.FindIndex | core/storage/turn_cost_storage.go:127-147 | found, missing, or too long: it gives up exactly when the node has a thousand entries or more and the turn is not among the first thousand, although more can be stored |
| TurnCosts.LastTurnIsNotFound | core/storage/turn_cost_storage.go:82-147 | a thousand and one turns are stored at a node, one after the other, and the last one is not found |
| TurnCosts.TurnCostStorage.GetFlags | core/storage/turn_cost_storage.go:149-155 | the stored value of the turn, zero when it has none, for nodes with fewer than a thousand turns |
| TurnCosts.TurnCostStorage.SortEdges | core/storage/turn_cost_storage.go:173-179 | every node keeps its turns with the new edge numbers, still each turn once |
| TurnCosts.TurnCostStorage.SortNodes | core/storage/turn_cost_storage.go:185-222 | every node keeps its turns in their order, now at consecutive places, and the entry count is the same, so the panic is unreachable |
| TurnCosts.TurnCostStorage.RelabelNodes | core/storage/base_graph.go:128-133 | so too after the nodes were renumbered by any permutation, each node taking its turns along |
| Hilbert.XY2D | core/util/hilbert.go:18-38 | the loop gives the index of the cell, although reflecting leaves stale high bits |
| Hilbert.CellOfIndex | core/util/hilbert.go:18-38 | the index of a cell is within the number of cells and leads back to it |
| Hilbert.IndexOfCell | core/util/hilbert.go:18-38 | every number below that is the index of its cell |
| Hilbert.IndexInjective | core/util/hilbert.go:18-38 | different cells have different indices |
| Hilbert.Consecutive | core/util/hilbert.go:18-38 | cells with consecutive indices are next to each other |
| Hilbert.LatLonToHilbertIndex | core/util/hilbert.go:5-14 | every position gets the index of the cell it lies in, by column from the west and row from the north; positions off the map belong to the cells along its border |
| Hilbert.OneCell | core/util/hilbert.go:5-14 | every position lies in exactly one cell of the grid |
| PathSimplifications.SimplifyPath | core/util/path_simplification.go:22-105 | for all partitions that cover the list: what is dropped is exactly what the algorithm drops between interval ends that follow each other, every interval follows its points, and the consistency check holds |
| PathSimplifications.IntervalsAreKept | core/util/path_simplification.go:107-118 | the intervals of a partition follow each other from the first to the last point left, and lead between the same points as before |
| PathSimplifications.DroppedAreNear | core/util/path_simplification.go:22-105 | every dropped point is within the tolerance of the chord of the two points left next to it |
| PathSimplifications.LeftAreFar | core/util/path_simplification.go:22-105 | every point left is an end of an interval, an end of a segment between two of these, or the farthest of its range from the chord of two others left between the same ends, and not within the tolerance |
| RamerDouglasPeuckers.RamerDouglasPeucker.SubSimplify | core/util/ramer_douglas_peucker.go:81-140 | marks exactly the points of the recursive definition and counts them; its panic is unreachable on a range without dropped points |
| RamerDouglasPeuckers.RamerDouglasPeucker.SimplifyRange | core/util/ramer_douglas_peucker.go:57-77 | the same in segments of 500 points when distances are approximate, compressed or not |
| RamerDouglasPeuckers.RemoveNaN | core/util/ramer_douglas_peucker.go:144-153 | moves the points left to the front in place, in their order |
| RamerDouglasPeuckers.DroppedNear | core/util/ramer_douglas_peucker.go:81-140 | a dropped point is near the chord of the points left next to it |
| RamerDouglasPeuckers.LeftIsFar | core/util/ramer_douglas_peucker.go:81-140 | a point left between the ends is the farthest of its range from the chord of two others left, and not within the tolerance |
| RamerDouglasPeuckers.LeftIsFarInRange | core/util/ramer_douglas_peucker.go:57-77 | in a range that is simplified in segments the segment ends are left, and every other point left is far from the chord of two others left, no more than a segment apart |
| SpatialKeys.EncodeInterleaves | core/geohash/spatial_key_algo.go:150-156 | the bits of x are at the even places of the key and those of y at the odd ones |
| SpatialKeys.EncodeDecode | core/geohash/spatial_key_algo.go:150-176 | a cell is decoded from its key if and only if sixteen bits hold its coordinates |
| SpatialKeys.EncodeInjective | core/geohash/spatial_key_algo.go:150-156 | cells with coordinates of sixteen bits have different keys |
| SpatialKeys.FarCellsShareKeys | core/geohash/spatial_key_algo.go:150-156 | with more bits, which the constructor allows, cells 65536 apart share a key |
| SpatialKeys.UpOfCell | core/geohash/spatial_key_algo.go:187-189 | the step up gives the key of the cell above, if and only if there is one in sixteen bits |
| SpatialKeys.DownOfCell | core/geohash/spatial_key_algo.go:192-194 | the step down gives the key of the cell below, if and only if there is one |
| SpatialKeys.RightOfCell | core/geohash/spatial_key_algo.go:197-199 | the step right gives the key of the cell to the right, if and only if there is one in sixteen bits |
| SpatialKeys.LeftOfCell | core/geohash/spatial_key_algo.go:202-204 | the step left gives the key of the cell to the left, if and only if there is one |
| LineIndex.PutFind | core/storage/index/in_mem_construction_index.go:92-122 | a put value is found under its key after the values found before, and under no other key |
| LineIndex.InMemConstructionIndex.Put | core/storage/index/in_mem_construction_index.go:86-122 | for every history of puts each key finds what was put under it, without repetitions in a row |
| LineIndex.CellsCollected | core/storage/index/in_mem_construction_index.go:71-88 | for cells of sixteen bits, the key of a cell leads to exactly what was put into that cell |
| LineIndex.LineIntIndex.StoreEntry | core/storage/index/line_int_index.go:83-126 | the buffer holds the tree from the pointer on, in places that belong to it alone |
| LineIndex.LineIntIndex.FillIDs | core/storage/index/line_int_index.go:130-151 | exactly the ids of the leaf in the stored tree, in order, for every key |
| LineIndex.LineIntIndex.Query | core/storage/index/line_int_index.go:155-236 | an unfiltered query reports every stored id exactly once |
| LineIndex.LineIntIndex.FindEdgeIdsInNeighborhood | core/storage/index/line_int_index.go:241-267 | on an index of any puts into cells of the grid: the ids are exactly those put into a cell at the given distance, and for the cell itself what was put there in order; each such cell is visited once |
| LocationIndex.LocationIndexTree.FindClosest | core/storage/index/location_index_tree.go:215-252 | on an index of any puts: the snap is to the closest accepted edge put into a cell of the rings searched, or there is none; the search ends with the first ring that is far enough, or with the last one allowed; when it ends early and edges put only outside are at least as far away as promised, no accepted edge at all is closer |
| LocationIndex.IndexAndFindClosest | core/storage/index/location_index_tree.go:215-252 | the same from the puts to the snap, through building, storing and searching the index |
| LocationIndex.LocationIndexTree.SearchRing | core/storage/index/location_index_tree.go:222-240 | after each ring every cell of the grid in the square so far has been visited exactly once, and the snap is to the closest accepted edge found in it |
| LocationIndex.RingsJoin | core/storage/index/line_int_index.go:241-267 | the rings up to one and the next one together visit each cell of the larger square exactly once |
| LineIndex.BuildIndex | core/storage/index/line_int_index.go:73-81 | put, stored and searched: for every list of puts into cells of the grid each cell finds what was put there, and the stored ids are those put |
| LineIndex.LeafPerTile | core/storage/index/index_structure_info.go:72-81 | the number of cells on a side of the grid is the root of the number of leaves, with nothing to round |
| LineIndex.CollectedIs | core/storage/index/in_mem_construction_index.go:92-122 | what a cell has collected are the ids put into it, in the order of the puts, with repetitions in a row left out |
| QueryOverlays.QueryOverlay.SplitEdge | core/routing/querygraph/query_overlay_builder.go:111-164 | the edge is replaced by a chain over the distinct snaps, whose geometry is that of the edge with the snapped points put in; every snap, one after the other, gets a new node, or the node before it when it is taken to be at that place |
| QueryOverlays.QueryOverlay.CreateEdges | core/routing/querygraph/query_overlay_builder.go:167-205 | an edge over one piece of the way and its way back, with the next keys |
| QueryOverlays.SlotsLeadBack | core/routing/querygraph/query_overlay_builder.go:167-205 | at every virtual node each of the two edges and its way back lead between the same nodes over the same points in reverse, with reverse keys |
| QueryOverlays.ChainNodesOk | core/routing/querygraph/query_overlay_builder.go:134-164 | a finished chain gives each virtual node its four slots: the edge to it and the edge on from it, back and forth |
| QueryOverlays.KeyFindsEdge | core/routing/querygraph/query_graph.go:145-166 | every virtual edge at any slot is found by its key |
| QueryOverlays.ReversedSnapOk | core/routing/querygraph/query_overlay_builder.go:55-76 | a snap seen from the other end is at the same pillar or between the same points |
| QueryOverlays.BuildVirtualEdges | core/routing/querygraph/query_overlay_builder.go:91-165 | every edge is split at its snaps and every snap gets its node; an edge with a snap that is not taken to be at its base node has a chain, and every virtual node belongs to the chain of one of the edges |
| QueryOverlays.HasPlace | core/routing/querygraph/query_overlay_builder.go:111-164 | a snap has the node at whose place it is taken to be: the base node, or one of the virtual nodes of the edge |
| QueryOverlays.BuildEdgeChanges | core/routing/querygraph/edge_change_builder.go:36-84 | a real node gains exactly the virtual edges that leave it, each once and in their order |
| QueryOverlays.LosesSplitEdges | core/routing/querygraph/edge_change_builder.go:76-84 | a real node loses exactly the split edges that end there |
| QueryOverlays.PiecesAtNode | core/routing/querygraph/edge_change_builder.go:36-58 | the virtual edges at a real node are the outer pieces of the split edges that end there |
| QueryOverlays.EdgesAtRealNode | core/routing/querygraph/query_graph.go:196-211 | the edges of a real node in the query graph are the added ones and those of its own that are not removed, each in order |
| CustomWeightings.MinWeightIsLowerBound | core/routing/weighting/custom/custom_weighting.go:59-91 | if the speed bound is within the clamp, the least weight per distance bounds the weight of every edge from below |
| CustomWeightings.MinWeightIff | core/routing/weighting/custom/custom_weighting.go:59-91 | for a passable edge the bound holds if and only if its speed times its priority is at most the product of the two maxima |
| CustomWeightings.ClampCutsTheBound | core/routing/weighting/custom/custom_model_parser.go:24-60 | above the clamp of 999 the bound fails: a model whose speed range reaches 1099 |
| CustomWeightings.RangeEncloses | core/routing/weighting/custom/find_min_max.go:13-58 | the range found for groups of statements holds the value they give any edge, with operands that are not negative |
| CustomWeightings.ApplyEncloses | web-api/statement.go:47-58 | each operation on ranges encloses the operation on values |
| CustomWeightings.ApplyReached | web-api/statement.go:47-58 | each operation on ranges reaches both of its ends |
| CustomWeightings.LimitCaps | core/routing/weighting/custom/statement_eval.go:61-68 | a limit leaves a value that does not exceed it and replaces every other one |
| CustomWeightings.FindMinMax | core/routing/weighting/custom/find_min_max.go:13-58 | the range is led to group by group, each time by the least range that holds all values a statement of the group can give, and the old ones if the group can be passed by; or a group fails |
| CustomWeightings.FindMinMaxForGroup | core/routing/weighting/custom/find_min_max.go:21-58 | the range found for a group is the least one: its ends are reached, and every value a statement gives lies within |
| CustomWeightings.EdgeToDouble | core/routing/weighting/custom/statement_eval.go:48-75 | the value is led to group by group: a group without a match leaves it, otherwise the first matching statement is evaluated and no other |
| CustomWeightings.EdgeWeightIs | core/routing/weighting/custom/custom_weighting.go:59-83 | an edge has a finite weight if and only if neither its speed nor its priority is zero; less the share of its distance it is then the time over the priority |
| CustomWeightings.OneValue | core/routing/weighting/custom/statement_eval.go:48-75 | the groups lead to exactly one value |
| CustomWeightings.SplitIntoGroups | core/routing/weighting/custom/statement_eval.go:21-41 | an if-statement and the else-statements behind it form a group; it fails exactly when the list starts with an else |
| CustomWeightings.CreateWeightingParameters | core/routing/weighting/custom/custom_model_parser.go:24-60 | the maxima are the upper ends of the two ranges, clamped |

## Left out

- Rounding: float32 and float64 arithmetic, the thousandths and the minimum of 0.001 that the
  hierarchy stores, its marker for infinite weights, and the integer widths of ids and distances.
- Search entries as shared objects: an entry is a value that holds its parents, and the deleted
  ones of a queue are a set. That two maps refer to one entry is not modelled.
- The preparation graph's edges are chained by references in the source and are sequences here;
  removing one keeps the others in order. The degree counter of a node is taken to be the length of
  its two sequences.
- The nodes of the B-tree are values that are replaced, not arrays whose elements are shifted; the
  byte offsets within a node's value array are not modelled.
- The tree of the spatial index is a value that each put replaces; tile filters, bounding boxes and
  visitors of tiles, and the rasterising of a line into cells, are not modelled.
- PrepareContraction.PrepareContractionHierarchies.UpdateNeighbors: which neighbours are drawn is a
  parameter, where the source uses a random number; in which order they are looked at is left open.
- PrepareContraction.PrepareContractionHierarchies.CalculatePriority: computes the priority with the
  contractor but takes the value from the assumed function of node and contracted nodes, because
  what a limited witness search counts is not proved to depend on the graph alone.
- The tables of bytes that spatial keys are encoded and decoded with are modelled by the functions
  that compute their entries; a wrong entry would not be noticed.
- LocationIndex.LocationIndexTree.FindClosest: the geometry is left out. How far an edge is and how
  far every cell outside the rings is at least are parameters, and so is the cell of the point.
- RamerDouglasPeuckers.RamerDouglasPeucker.SubSimplify: ranges that already contain dropped points
  are not modelled; the simplification of a path passes each range once.
- QueryOverlays.QueryOverlay.SplitEdge: distances, flags and key-value pairs of virtual edges, the
  grouping of snaps by edge and their sorting are not modelled, nor is the point that a snap gets when
  it shares a node.
- Edge-based contraction hierarchies and edge-based traversal with turn costs in the searches.
- The walk that a path reports keeps edges, ends and weight; times, distances and points of a path
  are not modelled.
- Alternative routes, direction and heading resolvers, snap filters, visited-node limits and
  timeouts, statistics, and everything that reads, writes or serves files.
