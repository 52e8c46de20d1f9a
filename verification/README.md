# A verified model of mneme's algorithms and protocols

mneme keeps a code graph, an embedding index and a set of installed manifests on a developer's machine. This
project models the parts of it where correctness is least obvious and proves, for all inputs, runs and
interleavings, what those parts promise:

- **Cycle detection** (`Digraph`, `CycleInvariant`, `CycleDetection`): the iterative Tarjan search with its explicit
  work stack. The moves of the loop form a machine; every reachable state keeps the invariant, and what the search
  returns is exactly the strongly connected components of two or more vertices.
- **Communities** (`Sums`, `Folds`, `Modularity`, `LocalMoving`, `MoveTraces`, `Labels`, `Refinement`,
  `RefinementMoves`, `RefinementLoss`, `Leiden`, `Communities`, `WholeGraph`, `Grouping`, `TwoNodes`): the Leiden
  solver against all-pairs modularity. Each phase is a function of the graph, the partition and the random draws,
  stated by true gains; the loops, with their incremental totals, compute those functions. `ClusterGraph`,
  `ClusterLists`, `ClusterCover`, `ClusterSplits`, `ClusterRunner`, `SplitLevels` and `ClusterLoss` add the recursive
  splitting of oversized communities: which are split and with which configuration, with exact accounts of every node
  and an example in which one is lost.
- **Live bus** (`Topics`, `Subscribers`, `SubscriberRaces`): topic patterns, bounded queues, lag and eviction, first
  as a sequential class and then as a machine of freely interleaving threads.
- **Job ids** (`Jobs`): the shared counter under every interleaving of `next` and `seed_to`.
- **IPC** (`IpcFrames`, `IpcClient`, `IpcRuns`): the length-prefixed frames, the streaming decoder, the table of
  waiting requests, and where their outcomes come from.
- **Embeddings** (`TopK`, `EmbedFile`, `FileExact`, `EmbedStore`, `NearestLaws`, `HashEmbed`, `HashEmbedLaws`,
  `HashVectors`, `EmbedNorms`, `EmbedCache`): the flat vector store against a map, the bounded top-k buffer against a
  full ranking, the index file, the hashing embedder and its cache.
- **Retrieval** (`Bm25`, `Bm25Laws`, `Bm25Index`, `Packer`): the index against a naive scan, how its formula weighs,
  and the greedy packer.
- **Reversible edits** (`Substrings`, `MarkerHeader`, `Markers`, `MarkerLaws`, `MarkerCycles`, `MarkerStrays`,
  `MarkerExample`, `Rollback`, `RollbackSummary`, `McpRegistry`): marker blocks in text, install receipts replayed in
  reverse, and what that makes of a platform's registry file.
- **Dates** (`Calendar`, `ReceiptNames`): the conversion from day counts to civil dates and the order of receipt file
  names.

`Sequences`, `SetFacts` and `Numbers` hold what several of them share.

Code that works step by step is modelled by methods and classes that carry its loops and fields; each is proved
against a specification on values, and the laws are lemmas about that specification.

Reading the model:

- `f32` and `f64` are exact reals (finite by construction), except in the index file, where a float is its 32-bit
  pattern; `ln` and `sqrt` are parameters with the properties stated in `Bm25.Logarithm` and `EmbedNorms.Root`.
- Random shuffles are driven by an arbitrary stream of draws. Hash functions are parameters; where a law needs more
  of them than being functions, it says so. So are reading and printing JSON (`McpRegistry.Lawful`).
- `Folds.Same` is equality under a seal: it lets a proof about a loop carry a function without unfolding it.
- The filesystem of a rollback is a map from paths to contents; a socket is a sequence of chunks; SQL tables are
  sequences of rows.

Where the code does something else than its comments say, or a law fails, the model follows the code:

- `refine` is described as moving nodes only when that strictly increases modularity. It compares the best gain with
  the tolerance but not with the gain of staying, and the scan keeps a staying gain that is within the tolerance of
  the best, so a move can cost up to 2e-12 of modularity. `Refinement.RehomedChanges` says exactly when one does,
  `RefinementLoss.RefinementCanLose` shows a graph with 32-bit weights, and `Refinement.RefinementLaws` bounds the whole pass.
- `aggregate` leaves a first-node placeholder in `parent`, so the partition after an outer iteration is the refined
  one and not the one local moving found (`Leiden.LiftBack`).
- `find` on markers is described as returning a block whose end sentinel is missing; it returns none, and `inject`
  then appends. A text with a start sentinel but no block is therefore changed by a second injection
  (`MarkerStrays.InjectTwiceStrayIff`, `MarkerStrays.StrayExample`).
- `ensure_surrounding_newlines` is described as leaving exactly one newline on each side; it adds one only where there
  is none, so further ones stay (`Markers.OneNewlineBeforeIff`, `Markers.OneNewlineAfterIff`, `Markers.TwoNewlinesStay`).
- The installer records a registry file as modified and then as registered, so a rollback takes the entry out before
  it looks for drift, and then finds drift unless the file was already printed the way the program prints it
  (`McpRegistry.RegistryRestoredIff`); a registry file that the install created is never removed
  (`McpRegistry.CreatedRegistryStays`).
- Splitting an oversized community loses every member that no edge inside the community touches
  (`ClusterRunner.ClusteredLaws`, `ClusterLoss.NodeCanBeLost`).
- The IPC buffer survives a close, so a new connection delivers its own frames and ends with an empty buffer if and
  only if the last one left nothing behind (`IpcFrames.ReconnectIff`).
- Receipt names stop sorting by time where years get a fifth digit (`ReceiptNames.NamesInOrderIff`,
  `ReceiptNames.NamesTurnAround`).
- The packer adds 32-bit estimates without a check (`Packer.UsedExactIff`,
  `Packer.WithinBudgetIff`, `Packer.OverflowExample`), and the job
  counter wraps (`Jobs.MonotoneIff`, `Jobs.WrapRepeatsAnId`).

## Model

| member | source | states |
|---|---|---|
| `CycleDetection.BuildAdjacency` | mcp/src/store.ts:1126-1137 | the adjacency lists hold exactly the targets of the rows in row order, and the node list every endpoint once |
| `CycleDetection.TargetsAreEdges` | mcp/src/store.ts:1126-1137 | a vertex is listed as a successor exactly when some row has that edge |
| `CycleInvariant.VisitKeeps` | mcp/src/store.ts:1164-1170 | numbering and stacking a new vertex keeps the search invariant |
| `CycleInvariant.LookKeeps` | mcp/src/store.ts:1160-1177 | looking at one more edge keeps the search invariant, also when it leads to a vertex that is no longer stacked |
| `CycleInvariant.LowerKeeps` | mcp/src/store.ts:1171-1177 | lowering a low link to the number of a stacked vertex that is reachable keeps the invariant |
| `CycleInvariant.JoinsParent` | mcp/src/store.ts:1191-1201 | a vertex whose low link is below its number is mutually reachable with its parent on the path |
| `CycleInvariant.LeaveKeeps` | mcp/src/store.ts:1191-1201 | returning from such a vertex keeps the invariant, its segment joining its parent's |
| `CycleInvariant.SegmentIsComponent` | mcp/src/store.ts:1179-1190 | when a low link equals its number, the top segment of the stack is a whole strongly connected component |
| `CycleInvariant.CompletedAppend` | mcp/src/store.ts:1179-1190 | emitting a component leaves the earlier ones unable to reach it |
| `CycleInvariant.CloseKeeps` | mcp/src/store.ts:1179-1191 | popping that component keeps the invariant |
| `CycleInvariant.DiscoverKeeps` | mcp/src/store.ts:1160-1170 | an edge to an unnumbered vertex, followed, keeps the invariant |
| `CycleInvariant.RevisitKeeps` | mcp/src/store.ts:1171-1177 | an edge to a vertex that is still stacked, whose number then lowers the low link, keeps the invariant |
| `CycleInvariant.ReturnKeeps` | mcp/src/store.ts:1191-1201 | finishing a vertex and passing its low link to its parent keeps the invariant |
| `CycleInvariant.CloseInherits` | mcp/src/store.ts:1180-1201 | after a component is closed, passing its low link to the parent changes nothing |
| `CycleDetection.MoveGood` | mcp/src/store.ts:1147-1208 | every move of the work loop keeps the invariant, the frames' positions and the step accounts |
| `CycleDetection.RunsAreGood` | mcp/src/store.ts:1147-1208 | every state reached by any run of moves is good |
| `CycleDetection.PopComponent` | mcp/src/store.ts:1181-1188 | pops exactly the stack from the root of the component up |
| `CycleDetection.ScanNext` | mcp/src/store.ts:1157-1177 | one turn of the edge scan is one legal move of the machine |
| `CycleDetection.FinishVertex` | mcp/src/store.ts:1178-1202 | finishing a vertex is one legal move, emitting a component exactly when the low link equals the number |
| `CycleDetection.Turn` | mcp/src/store.ts:1156-1203 | one turn of the work loop is one legal move, counted once, and brings the search closer to its end |
| `CycleDetection.StrongConnect` | mcp/src/store.ts:1147-1204 | a search from an unnumbered root ends with an empty work stack, in a reached state, having counted its turns |
| `CycleDetection.StepCount` | mcp/src/store.ts:1156-1208 | the steps of all finished vertices add up to the vertices plus the rows |
| `CycleDetection.CyclesSound` | mcp/src/store.ts:1180-1209 | every listed cycle is a component of two or more distinct vertices and reaches no later one |
| `CycleDetection.CyclesComplete` | mcp/src/store.ts:1180-1209 | any two different mutually reachable vertices are listed together |
| `CycleDetection.DetectCycles` | mcp/src/store.ts:1107-1214 | for every edge list, exactly the strongly connected components of two or more nodes, pairwise disjoint, none reaching a later one, and the counted turns of the work loop are exactly nodes plus rows |
| `Modularity.MoveChangesQuality` | brain/src/leiden.rs:280-286 | moving one node changes all-pairs modularity by twice the difference of its pulls |
| `Modularity.GainIsPull` | brain/src/leiden.rs:268-279 | the gain formula is the pull of a community without the node, divided as in modularity |
| `WholeGraph.OneCommunity` | brain/src/leiden.rs:86-118 | a graph without self-loops has modularity 1 less the resolution when it is taken as one community |
| `WholeGraph.TwoEnds` | brain/src/leiden.rs:100-118 | without self-loops the strengths of all nodes add up to twice the weight of the edges that count |
| `WholeGraph.RowsWeigh` | brain/src/leiden.rs:100-118 | the rows hold between any two nodes exactly the summed positive weight of the edges between them |
| `Modularity.MoveGain` | brain/src/leiden.rs:268-286 | a move changes modularity by exactly twice the difference of the two gains |
| `Modularity.MoveSigma` | brain/src/leiden.rs:255-286 | how a move changes the summed strength of every community |
| `LocalMoving.NeighbourWeights` | brain/src/leiden.rs:247-254 | the table holds for each neighbouring community the weight of the node's edges into it, self-loops left out |
| `LocalMoving.ScanIs` | brain/src/leiden.rs:260-274 | the tolerant scan ends at its start or at a candidate that gains something, and no candidate gains more than the tolerance above it |
| `LocalMoving.BestGain` | brain/src/leiden.rs:260-274 | the loop computes that scan from the accumulated weights and totals |
| `LocalMoving.VisitedRaises` | brain/src/leiden.rs:245-287 | a visit that changes something goes to a neighbouring community and raises modularity by exactly twice the gain difference, more than 2e-12; one that does not leaves the node near its best |
| `LocalMoving.AccumulatorsChoose` | brain/src/leiden.rs:247-279 | the incrementally kept weights and totals lead to the choice that summing anew would make |
| `LocalMoving.VisitNode` | brain/src/leiden.rs:245-287 | the visit does exactly what the specification by true gains says, and the totals stay exact |
| `LocalMoving.OrderIsOrder` | brain/src/leiden.rs:237-238 | whatever the draws, every node is visited once |
| `LocalMoving.Shuffle` | brain/src/leiden.rs:237-238 | the loop computes the order that the draws give |
| `LocalMoving.SigmaTotals` | brain/src/leiden.rs:231-235 | the totals are the summed strengths of the communities |
| `LocalMoving.PassImproves` | brain/src/leiden.rs:245-287 | each move of a pass raises modularity by more than 2e-12 |
| `LocalMoving.PassIdleIff` | brain/src/leiden.rs:242-288 | a pass leaves the partition as it was just when no visit moves a node |
| `LocalMoving.IdlePassSettles` | brain/src/leiden.rs:240-288 | when a full pass moved nothing, every neighbouring community of every node gains at most max(1e-12, staying + 2e-12) |
| `LocalMoving.Pass` | brain/src/leiden.rs:242-288 | the loop makes the visits of the pass in order, and its flag says whether anything changed |
| `MoveTraces.PassVisits` | brain/src/leiden.rs:242-288 | a pass visits every node once, in its order; each visit moves the node to a neighbouring community that beats staying and is near the best, or leaves it near its best |
| `MoveTraces.LocalMovedIs` | brain/src/leiden.rs:240-289 | local moving makes passes that each change something, up to the number allowed, and stops before only if one more would change nothing |
| `LocalMoving.LocalMovedImproves` | brain/src/leiden.rs:240-289 | local moving raises modularity by more than 2e-12 a move, and unless all thirty-two passes moved something it leaves every node near its best |
| `LocalMoving.LocalMovedSettles` | brain/src/leiden.rs:240-289 | stopping before the cap means that the last pass was idle, and so that every node is near its best |
| `LocalMoving.LocalMove` | brain/src/leiden.rs:222-289 | the loop computes local moving with its cap of thirty-two passes, with that guarantee |
| `Labels.Compress` | brain/src/leiden.rs:410-421 | the labels are renumbered by first appearance without changing which nodes share one, which determines them |
| `Labels.CanonicalDense` | brain/src/leiden.rs:410-421 | renumbered labels are exactly 0 to k-1 |
| `Labels.CanonicalUnique` | brain/src/leiden.rs:410-421 | equivalent partitions in canonical labels are equal |
| `Labels.CanonIs` | brain/src/leiden.rs:410-421 | the canonical labels of a partition are determined by its classes |
| `Refinement.WeightsInside` | brain/src/leiden.rs:312-321 | the weights into refined communities, counting only neighbours of the same outer community |
| `Refinement.UntouchedGain` | brain/src/leiden.rs:322-339 | on a graph of positive weights, staying alone where nothing is touched gains nothing |
| `Refinement.StayingIsNear` | brain/src/leiden.rs:326-344 | on positive weights, the community chosen is at most the tolerance worse than staying |
| `Refinement.RehomedChanges` | brain/src/leiden.rs:311-345 | a refinement move stays in its outer community and changes modularity by exactly twice the gain difference: it lowers it if and only if the best community is another one whose gain is above the tolerance and below the gain of staying, and by at most 2e-12 |
| `Refinement.VisitRefine` | brain/src/leiden.rs:311-345 | the visit does exactly what the specification by true gains says, and the totals stay exact |
| `Refinement.QualityEquivalent` | brain/src/leiden.rs:347-348 | relabelling does not change modularity |
| `Refinement.RefinementLaws` | brain/src/leiden.rs:295-349 | the result refines the local-moving partition, in canonical labels, and is at most 2e-12 a node worse than single nodes |
| `Refinement.Refine` | brain/src/leiden.rs:295-349 | the loop computes the refinement, with those guarantees; what it does move is stated by `RefinementMoves` |
| `RefinementMoves.AloneMovesIff` | brain/src/leiden.rs:311-345 | visited while all nodes are alone, a node moves if and only if an edge inside its outer community would let it gain more than the tolerance |
| `RefinementMoves.MovedShares` | brain/src/leiden.rs:311-345 | a node that moves ends up with the label of a neighbour |
| `RefinementMoves.RefinementMovesIff` | brain/src/leiden.rs:295-349 | refinement leaves every node alone if and only if no edge inside an outer community would let a single node gain; otherwise two nodes share a community |
| `RefinementMoves.RefinementVisits` | brain/src/leiden.rs:311-345 | the refinement is what visits of every node in turn lead to, each moving its node to a nearby community that is near the best, or leaving it because none gains more than the tolerance above zero or above staying |
| `RefinementLoss.RefinementCanLose` | brain/src/leiden.rs:311-345 | a graph of five nodes with three edges of 32-bit weights on which the second visit of a refinement lowers modularity |
| `Leiden.Parents` | brain/src/leiden.rs:380-388 | the parent of a super-node is the first node that bears its label |
| `Leiden.LiftBack` | brain/src/leiden.rs:189-207 | lifting the aggregated labels gives the refined partition back, label by label |
| `Leiden.IterationLaws` | brain/src/leiden.rs:182-207 | an outer iteration refines what local moving found, with the guarantees of both phases: every node near its best before refinement unless all thirty-two passes moved something, and at most 2e-12 a node lost by refinement |
| `Leiden.Iterate` | brain/src/leiden.rs:182-207 | the array is left as local moving found it, and the result is its refinement |
| `Leiden.SolverModularity` | brain/src/leiden.rs:391-407 | the solver's own modularity, summed over adjacent pairs of one community |
| `Leiden.SolvedIsIteration` | brain/src/leiden.rs:182-217 | with a budget of at least one, the solver ends with the result of its last iteration |
| `Leiden.SolvedLaws` | brain/src/leiden.rs:165-218 | that result refines what the last local moving found, which is near its best unless all thirty-two passes moved something, and is at most 2e-12 a node worse than single nodes |
| `Leiden.SolvedIsCanonical` | brain/src/leiden.rs:216-217 | the labels are canonical, whatever the budget |
| `Leiden.Solve` | brain/src/leiden.rs:165-218 | the loop computes the iterations until the solver's own modularity settles or the budget is spent |
| `Leiden.SolverStops` | brain/src/leiden.rs:182-213 | the solver iterates from single nodes until its own modularity changes by less than the tolerance, and not before unless the budget is spent |
| `Grouping.SolvedGroupsIff` | brain/src/leiden.rs:165-218 | two nodes share a label if and only if an edge inside what the last local moving found would let a node that is alone gain |
| `Grouping.RunGroupsIff` | brain/src/leiden.rs:86-158 | some community has two members under exactly that condition |
| `TwoNodes.PairMoved` | brain/src/leiden.rs:222-289 | local moving joins the two ends of an edge wherever it starts |
| `TwoNodes.PairIsOne` | brain/src/leiden.rs:86-158 | the two ends of a single edge come out as one community of cohesion 1, whatever the weight, budget, tolerance and draws |
| `TwoNodes.PairSolverQuality` | brain/src/leiden.rs:391-407 | by the solver's own modularity the two are worth one half together and nothing apart |
| `Communities.BuildRows` | brain/src/leiden.rs:100-118 | the adjacency rows of the positive-weight edges, a self-loop entered once, and their total weight |
| `Communities.RowsSymmetric` | brain/src/leiden.rs:100-118 | those rows are symmetric and positive for every edge list |
| `Communities.Buckets` | brain/src/leiden.rs:123-127 | each bucket holds exactly the nodes of one label, in ascending order |
| `Communities.MeasureCohesion` | brain/src/leiden.rs:133-149 | cohesion is the fraction of the weight at a community's nodes that stays inside |
| `Communities.CohesionInRange` | brain/src/leiden.rs:135-149 | cohesion lies between 0 and 1 |
| `Communities.CohesionOneIff` | brain/src/leiden.rs:135-149 | cohesion is 1 if and only if no edge leaves the community |
| `Communities.CohesionComplement` | brain/src/leiden.rs:135-149 | what is missing from 1 is the share of the weight that leaves the community |
| `Communities.KeyAt` | brain/src/leiden.rs:123-133 | the sorted bucket keys are the labels 0 to k-1, and each bucket holds the nodes of its label |
| `Communities.LabelsKeepQuality` | brain/src/leiden.rs:86-121 | the labelling is at most 2e-12 a node worse in modularity than single nodes |
| `Communities.CommunitiesUnique` | brain/src/leiden.rs:123-155 | a labelling determines its communities: members, order, ids and cohesion |
| `Communities.Run` | brain/src/leiden.rs:86-158 | the communities of exactly the labelling that the solver ends with: dense ids, none empty, cohesion in range |
| `ClusterGraph.GraphIs` | brain/src/cluster_runner.rs:147-162 | the graph of a list of edges has every node a positive-weight edge touches once, self-loops included, and exactly the positive edges between two nodes, in order |
| `ClusterGraph.BuildGraph` | brain/src/cluster_runner.rs:147-162 | the loop builds that graph |
| `ClusterLists.ReindexedIs` | brain/src/cluster_runner.rs:164-176 | largest first, ties by least member, ids from 0, nothing lost |
| `ClusterLists.Reindex` | brain/src/cluster_runner.rs:164-176 | the sort and the renumbering loop compute that list |
| `ClusterLists.SortedHolds` | brain/src/cluster_runner.rs:164-172 | sorting keeps every node as often as it was held and puts communities in order |
| `ClusterLists.OnceMeansDisjoint` | brain/src/cluster_runner.rs:73-140 | when no node is held twice, communities are pairwise disjoint |
| `ClusterCover.CommunitiesCover` | brain/src/leiden.rs:123-157 | the communities of a labelling together hold every node of the graph exactly once |
| `ClusterSplits.InducedTwice` | brain/src/cluster_runner.rs:95-102 | inducing edges level by level gives the edges inside the innermost community |
| `ClusterSplits.SubLinks` | brain/src/cluster_runner.rs:95-102 | exactly the edges with both ends in the community |
| `ClusterSplits.NoneLostIff` | brain/src/cluster_runner.rs:93-137 | splits lose no node if and only if every member of a split community touches a positive-weight edge inside it |
| `ClusterSplits.AccountsJoin` | brain/src/cluster_runner.rs:88-139 | the accounts of two lists of communities add up |
| `ClusterRunner.AccountsPieces` | brain/src/cluster_runner.rs:93-137 | the pieces of a split and the nodes it lost make up the community exactly |
| `ClusterRunner.SplitCommunityAccounts` | brain/src/cluster_runner.rs:93-137 | for any solver that puts every node in one community, an oversized community is kept or replaced by pieces that account for it |
| `ClusterRunner.SplittingAccounts` | brain/src/cluster_runner.rs:73-140 | for any such solver the recursion ends with ranked communities, each inside a given one, and every node is held or was lost in one of the splits made |
| `ClusterRunner.LeidenIsReliable` | brain/src/cluster_runner.rs:115-117 | the Leiden solver puts every node of its edges in exactly one non-empty community |
| `ClusterRunner.SplitOne` | brain/src/cluster_runner.rs:93-137 | the method makes exactly the split of the recursion |
| `ClusterRunner.SplitOversized` | brain/src/cluster_runner.rs:73-140 | the loop computes exactly the recursion, ending by remaining depth |
| `ClusterRunner.SplitsKeepNodesIff` | brain/src/cluster_runner.rs:73-140 | communities that account for disjoint ones are disjoint, and hold all their nodes if and only if every member of every community split touches a positive-weight edge inside it |
| `ClusterRunner.ClusteredLaws` | brain/src/cluster_runner.rs:52-140 | disjoint, non-empty, ranked communities of the nodes that positive-weight edges touch; every node is in one or was lost in a split that was made, and all are there if and only if no split left a member without an edge inside |
| `ClusterRunner.RunClusters` | brain/src/cluster_runner.rs:52-71 | the runner computes exactly that outcome; which configuration each level is solved with, and what is split, is stated by `SplitLevels` |
| `SplitLevels.OneDeeper` | brain/src/cluster_runner.rs:110-113 | each level multiplies the resolution by the step once more and advances the seed, with wrap-around, by its number |
| `SplitLevels.LevelsDecide` | brain/src/cluster_runner.rs:73-140 | two solvers that agree on the configurations of levels 1 to `max_split_depth`, with the resolution times the powers of the step, lead to the same outcome |
| `SplitLevels.SplitMadeIff` | brain/src/cluster_runner.rs:82-120 | of disjoint communities, exactly those are split that are larger than the given share of all nodes, a share above three nodes, with a level left and inner edges that the solver takes apart; the others come out as they are |
| `SplitLevels.LeidenFinds` | brain/src/cluster_runner.rs:115-117 | the solver of the runner is Leiden on the graph of the edges, with the resolution, budget, tolerance and seed of the configuration |
| `SplitLevels.RunSplitsIff` | brain/src/cluster_runner.rs:52-140 | the same of a whole run of the runner with the Leiden solver |
| `ClusterLoss.NodeCanBeLost` | brain/src/cluster_runner.rs:73-140 | with a solver that puts every node in one community, six nodes and three edges, one node ends in no community |
| `Topics.SegmentsRoundTrip` | livebus/src/bus.rs:215-222 | splitting at dots and joining again is the identity |
| `Topics.LiteralMatch` | livebus/src/bus.rs:240-252 | without a trailing `#`, the recursive rules mean equal length and agreement in every segment |
| `Topics.TailMatch` | livebus/src/bus.rs:219-238 | with a trailing `#`, they mean agreement in every segment before it |
| `Topics.TopicMatches` | livebus/src/bus.rs:215-252 | the loops decide the recursive rules of `*` and trailing `#` |
| `Topics.TopicMatchesAny` | livebus/src/bus.rs:255-257 | some pattern matches |
| `Topics.ValidateTopic` | livebus/src/bus.rs:174-191 | accepts exactly the well-formed topics |
| `Subscribers.OfferSound` | livebus/src/subscriber.rs:177-213 | an offered event keeps queue, lag and delivery counters equal to what the history says |
| `Subscribers.DeliveredInOrder` | livebus/src/subscriber.rs:177-213 | consumed plus queued is an in-order selection of the matching events, all of them if every send succeeded, and `delivered` is its length |
| `Subscribers.UndrainedIsEvicted` | livebus/src/subscriber.rs:184-212 | a subscriber still registered that never drained had at most 99 matching dispatches |
| `Subscribers.LagIs` | livebus/src/subscriber.rs:184-212 | the lag is the number of failures since the last success |
| `Subscribers.CondemnedIff` | livebus/src/subscriber.rs:187-206 | of those that want the event, exactly the closed ones and those whose failures since the last success reach fifty are condemned, the latter with a full queue |
| `Subscribers.DispatchedIs` | livebus/src/subscriber.rs:177-213 | who stays after a dispatch and its evictions, and with what in the queue: whoever was open and had fewer than fifty events queued stays and has the event, and only notices follow it |
| `Subscribers.UndrainedSurvives` | livebus/src/subscriber.rs:177-213 | over a run of dispatches, a new subscriber that never drains, wants every event and no notices stays for ninety-nine and is gone after the hundredth |
| `Subscribers.EvictionKeepsOthers` | livebus/src/subscriber.rs:216-277 | an eviction leaves everyone else current, with its notice |
| `Subscribers.EvictionsSettle` | livebus/src/subscriber.rs:210-240 | after all evictions everyone left is current and tolerated, and one notice went out for each |
| `Subscribers.Manager.constructor` | livebus/src/subscriber.rs:92-101 | an empty registry whose first id is 1 |
| `Subscribers.Manager.Register` | livebus/src/subscriber.rs:106-120 | a fresh id and an empty queue, or refusal of an invalid pattern |
| `Subscribers.Manager.UpdatePatterns` | livebus/src/subscriber.rs:124-148 | patterns are replaced exactly for a registered id with valid patterns; queue and counters carry over |
| `Subscribers.Manager.Unregister` | livebus/src/subscriber.rs:151-155 | the id is gone and nothing else changes |
| `Subscribers.Manager.TryAll` | livebus/src/subscriber.rs:177-208 | every registered subscriber is offered the event once, in any order, and exactly those over the limit or gone are condemned |
| `Subscribers.Manager.Evict` | livebus/src/subscriber.rs:216-240 | removed, counted and recorded once, with one guarded notice; nothing if already gone |
| `Subscribers.Manager.DispatchInternal` | livebus/src/subscriber.rs:245-277 | everyone is offered the event; with the guard up nobody is evicted, so eviction and dispatch do not loop; with it down exactly the condemned are |
| `Subscribers.Manager.EvictEach` | livebus/src/subscriber.rs:210-212 | evictions one by one, with as many counts, drops and notices as victims |
| `Subscribers.Manager.Dispatch` | livebus/src/subscriber.rs:177-213 | of those that want the event, exactly the closed ones and those with fifty failures since the last success leave; whoever remains is current with everything dispatched, and has the event if there was room |
| `SubscriberRaces.StepKeepsInvariant` | livebus/src/subscriber.rs:106-277 | every atomic step of every thread keeps the registry invariant |
| `SubscriberRaces.RunKeepsInvariant` | livebus/src/subscriber.rs:106-277 | so does every interleaving |
| `SubscriberRaces.DutiesCount` | livebus/src/subscriber.rs:216-240 | counts, drops and notices are at most one for each victim, and exactly one once nothing is in flight |
| `SubscriberRaces.EveryRunIsSafe` | livebus/src/subscriber.rs:106-277 | in every run a removed id never reappears, counts, drops and notices are each at most one for a victim and of victims only, and exactly one once nothing is in flight |
| `SubscriberRaces.EvictionsEnd` | livebus/src/subscriber.rs:177-277 | every step of a dispatching thread brings it closer to its end, whatever the others do |
| `Jobs.StepIsGood` | common/src/jobs.rs:26-57 | a step lowers the counter exactly when a `fetch_add` wraps, and otherwise keeps the invariant |
| `Jobs.FailureShortens` | common/src/jobs.rs:40-56 | a failed compare-exchange brings the caller strictly closer to the value it wants |
| `Jobs.FailuresAreBounded` | common/src/jobs.rs:40-56 | a call of `seed_to` fails at most as often as the counter was behind when it started |
| `Jobs.RunIsGood` | common/src/jobs.rs:26-57 | over every run without a wrap the counter never decreases |
| `Jobs.IssuedFromHere` | common/src/jobs.rs:30-32 | no id of a run is below the counter it started from |
| `Jobs.IdsIncrease` | common/src/jobs.rs:30-32 | under every interleaving later ids are larger, so ids never repeat |
| `Jobs.SeedHolds` | common/src/jobs.rs:34-57 | an id issued after `seed_to(v)` returned is at least v |
| `Jobs.MonotoneIff` | common/src/jobs.rs:26-57 | the counter only moves up over a run if and only if no `fetch_add` wraps |
| `Jobs.UnseededIdsAreConsecutive` | common/src/jobs.rs:26-32 | without seeding, ids are consecutive |
| `Jobs.WrapRepeatsAnId` | common/src/jobs.rs:26-57 | a concrete run in which a wrap lets an id out twice |
| `IpcFrames.BeRoundTrip` | cli/src/ipc.rs:500-505 | reading back a big-endian length gives it modulo 2^32 |
| `IpcFrames.BigEndian` | cli/src/ipc.rs:500-505 | the most significant byte comes first, and a length of 2^32 is written as 0 |
| `IpcFrames.ParseInPieces` | mcp/src/db.ts:103-123 | parsing a stream in two pieces gives what parsing it whole gives |
| `IpcFrames.StreamParses` | mcp/src/db.ts:103-123 | a stream of frames is parsed into exactly its bodies |
| `IpcFrames.ChunksDoNotMatter` | mcp/src/db.ts:103-123 | whatever the chunking, a connection delivers what parsing the whole stream delivers |
| `IpcFrames.EveryBodyArrives` | mcp/src/db.ts:103-123 | for any bodies below 2^32 bytes and any chunking, exactly the bodies in order, with only an incomplete frame left |
| `IpcFrames.FrameReadBackIff` | cli/src/ipc.rs:500-505 | a frame is read back exactly when its body is shorter than 2^32 bytes |
| `IpcFrames.ParseIsExact` | mcp/src/db.ts:103-123 | framing what was parsed and adding the rest gives the buffer back |
| `IpcFrames.ReconnectIff` | mcp/src/db.ts:88-97 | a new connection delivers exactly its own frames and leaves nothing buffered if and only if the last one left nothing buffered |
| `IpcClient.FirstAnswerWins` | mcp/src/db.ts:110-121 | a waiting request takes the first frame that names it; malformed and unknown frames change nothing |
| `IpcClient.SettledOnce` | mcp/src/db.ts:88-161 | over every run of answers, timeouts, write errors and closes a request gets exactly one outcome or none, and keeps it |
| `IpcClient.CloseLeavesNoneWaiting` | mcp/src/db.ts:88-97 | once the socket has closed, every request issued before has an outcome |
| `IpcClient.Client.constructor` | mcp/src/db.ts:60-69 | an empty buffer and no requests |
| `IpcClient.Client.Deliver` | mcp/src/db.ts:110-121 | a decoded frame settles the request it names and clears its timer |
| `IpcClient.Client.OnData` | mcp/src/db.ts:103-123 | the loop takes all whole frames and hands them out in order; the table holds exactly the requests without an outcome |
| `IpcClient.Client.Request` | mcp/src/db.ts:125-161 | a fresh request waits if there is a socket, and is rejected at once if there is none; what becomes of it is stated by `IpcRuns` |
| `IpcClient.Client.OnTimeout` | mcp/src/db.ts:134-137 | a timer that fires rejects its request |
| `IpcClient.Client.OnWriteError` | mcp/src/db.ts:153-159 | a write error rejects the request unless it already has an outcome |
| `IpcClient.Client.OnConnect` | mcp/src/db.ts:75-81 | only the connection changes; the buffer is kept |
| `IpcClient.Client.OnClose` | mcp/src/db.ts:88-97 | every waiting request is rejected and the table is empty |
| `IpcRuns.AnswerArrives` | mcp/src/db.ts:99-161 | without a timeout, a write error or a close, a waiting request ends with the first frame that names it among all those received, however they were cut, and goes on waiting if there is none |
| `IpcRuns.RequestIsAnswered` | mcp/src/db.ts:125-161 | a request made while connected gets its answer when the peer sends it |
| `IpcRuns.OutcomeHasCause` | mcp/src/db.ts:76-161 | every outcome was given, to a request without one, by the event it names: an answer by data with that frame, a timeout by that timer, a write failure by that write, a closed socket by a close, a missing one by a request made without a socket |
| `IpcRuns.FailureSettles` | mcp/src/db.ts:136-158 | a timer that fires or a write that fails leaves its request with an outcome |
| `IpcRuns.MissingIff` | mcp/src/db.ts:146-152 | a request fails for want of a socket if and only if it was made while there was none, the last connect or close before it deciding |
| `TopK.StableSortSorts` | brain/src/embed_store.rs:199-206 | the sort keeps the hits and puts them in descending order |
| `TopK.BufferStep` | brain/src/embed_store.rs:199-206 | pushing, sorting and cutting a buffer of k is cutting the full ranking to k |
| `TopK.OfferNext` | brain/src/embed_store.rs:186-207 | offering row i to the buffer gives the first k of the ranking of the first i+1 rows |
| `TopK.RankingUnique` | brain/src/embed_store.rs:176-209 | there is only one ranking by descending score and ascending position |
| `EmbedFile.LeRoundTrip` | brain/src/embed_store.rs:227-231 | little-endian numbers are read back |
| `EmbedFile.RowsRoundTrip` | brain/src/embed_store.rs:230-241 | encoded rows are decoded into the same ids and vectors, whatever follows |
| `EmbedFile.FileRoundTrip` | brain/src/embed_store.rs:212-310 | decoding an encoded file gives the same rows in the same order |
| `EmbedFile.WriteFile` | brain/src/embed_store.rs:226-242 | the loop writes the encoding |
| `EmbedFile.LoadFile` | brain/src/embed_store.rs:259-310 | the loop reads what the decoder specifies, refusing a bad header or a short file |
| `FileExact.DecodeIff` | brain/src/embed_store.rs:259-310 | a file is accepted, and as these rows, if and only if it begins with the encoding of them |
| `FileExact.HeaderBytes` | brain/src/embed_store.rs:226-229 | the bytes of the header of a file of 258 rows |
| `EmbedStore.OverwriteMaps` | brain/src/embed_store.rs:121-123 | overwriting a row updates the map it represents at that id |
| `EmbedStore.AppendMaps` | brain/src/embed_store.rs:124-127 | appending a row adds its id to the map |
| `EmbedStore.DeleteMaps` | brain/src/embed_store.rs:159-170 | draining a row removes its id from the map and keeps the others |
| `EmbedStore.Store.constructor` | brain/src/embed_store.rs:78-99 | opening a file gives its rows, clean; they stand for a map just when no id occurs twice |
| `EmbedStore.Store.Upsert` | brain/src/embed_store.rs:112-130 | the map is updated at the node, which keeps its place; a wrong length changes nothing |
| `EmbedStore.Store.UpsertMany` | brain/src/embed_store.rs:134-156 | all items in order, or none; known ids keep their places and new ones follow in order |
| `EmbedStore.Store.Remove` | brain/src/embed_store.rs:159-170 | exactly the node goes from the map, and the other ids keep their order |
| `EmbedStore.Store.Nearest` | brain/src/embed_store.rs:176-209 | the first min(k, n) of the ranking of all rows by dot product, ties by position |
| `EmbedStore.Store.Flush` | brain/src/embed_store.rs:212-252 | a flush that gets through leaves a file that opens to the same ids, order and vectors; a failed one stays dirty |
| `EmbedStore.DotProduct` | brain/src/embed_store.rs:191-194 | the loop computes the dot product |
| `NearestLaws.DotIsSimilarity` | brain/src/embed_store.rs:191-194 | the score of a row is the similarity of the vectors that the bits stand for |
| `NearestLaws.ItselfIsNearest` | brain/src/embed_store.rs:176-210 | a row scores its squared length with itself, and no row that is no longer than the query scores more than the query itself |
| `HashEmbed.HashingEmbed` | brain/src/embeddings.rs:485-529 | the loops over tokens, trigrams and buckets compute the embedding function |
| `HashEmbed.Fnv1a` | brain/src/embeddings.rs:475-482 | the loop computes FNV-1a with wrapping multiplication |
| `HashVectors.KnownHashes` | brain/src/embeddings.rs:475-482 | the published hashes of the empty text, of "a" and of "foobar" |
| `HashVectors.BucketsDivide` | brain/src/embeddings.rs:506-517 | all 384 buckets are reached, and two hashes share one if and only if they differ by a multiple of 384 |
| `HashVectors.RawAt` | brain/src/embeddings.rs:500-518 | before scaling, each place counts the tokens of two bytes or more and half the windows of three bytes that hash to it, with the sign of its parity |
| `HashEmbed.L2Normalise` | brain/src/embeddings.rs:555-563 | divides by the root of the sum of squares unless that is tiny |
| `HashEmbedLaws.BucketParity` | brain/src/embeddings.rs:506-509 | a bucket has the parity of its hash |
| `HashEmbedLaws.AddAllKeeps` | brain/src/embeddings.rs:500-518 | features never cancel: each adds its whole weight to the mass |
| `HashEmbedLaws.RawMass` | brain/src/embeddings.rs:500-518 | the absolute values add up to the tokens plus half the trigrams, even buckets not negative, odd not positive |
| `HashEmbedLaws.ScaledMass` | brain/src/embeddings.rs:520-525 | scaling a long text keeps at least half a unit of mass |
| `EmbedNorms.EmbeddingIs` | brain/src/embeddings.rs:485-529 | an embedding is a signed unit vector if the text has a token of two bytes or a trigram, and zero otherwise |
| `EmbedNorms.SimilarityInRange` | brain/src/embeddings.rs:485-563 | any two embeddings have a dot product between 0 and 1 |
| `EmbedCache.CacheIsTransparentIff` | brain/src/embeddings.rs:150-204 | no run of the cache changes an answer if and only if texts that share a key share their embedding |
| `EmbedCache.FallbackRunsAreRight` | brain/src/embeddings.rs:150-204 | with digests that do not collide, every vector of every run is the hashed embedding of its own text, in order |
| `EmbedCache.Embedder.Embed` | brain/src/embeddings.rs:150-162 | the cached answer or the computed one, which is then stored |
| `EmbedCache.Embedder.EmbedBatch` | brain/src/embeddings.rs:165-199 | answers in the order of the texts; only unknown texts are computed, and no slot stays empty |
| `EmbedCache.Embedder.ClearCache` | brain/src/embeddings.rs:202-204 | the cache is empty |
| `Bm25.ScorePositiveIff` | brain/src/retrieve.rs:157-172 | a document has a positive score exactly when it shares a token with the query |
| `Bm25.NaiveHitsAre` | brain/src/retrieve.rs:157-172 | the scan lists exactly those documents, with their scores, in order |
| `Bm25Laws.RarerWeighsMore` | brain/src/retrieve.rs:157-172 | a rarer token weighs more |
| `Bm25Laws.MoreOccurrencesScoreMore` | brain/src/retrieve.rs:157-172 | the more often a token occurs, the more it adds |
| `Bm25Laws.LongerScoresLess` | brain/src/retrieve.rs:157-172 | in a longer document the same occurrences add less |
| `Bm25Laws.AverageDocument` | brain/src/retrieve.rs:157-172 | one occurrence in a document of average length adds just the weight of the token, no number of them two and a half times that, and in one twice as long 2.5 / 3.625 of it |
| `Bm25Index.BuildFromDocuments` | brain/src/retrieve.rs:114-146 | term counts, document frequencies, average length and ids agree with the documents |
| `Bm25Index.Search` | brain/src/retrieve.rs:150-179 | the first k of the naive scan's ranking |
| `Bm25Index.RankingIsExact` | brain/src/retrieve.rs:150-179 | the ranking holds exactly the documents that share a token, by descending score and then position |
| `Packer.EstimateRoundsUp` | brain/src/retrieve.rs:457-463 | the estimate is the size in fours, rounded up, and 0 only for an empty text |
| `Packer.UsedPlusWraps` | brain/src/retrieve.rs:392-411 | what the hits cost is what is reported, plus 2^32 for every wrap of the sum |
| `Packer.UsedExactIff` | brain/src/retrieve.rs:392-411 | the tokens reported are those of the hits if and only if no pick wraps the sum |
| `Packer.WithinBudgetIff` | brain/src/retrieve.rs:392-411 | the hits cost no more than the budget if and only if no pick wraps the sum |
| `Packer.GreedyPacks` | brain/src/retrieve.rs:392-411 | without a wrap the hits cost what is reported, within budget, and no omitted non-empty candidate would still fit |
| `Packer.SmallCostsDoNotWrap` | brain/src/retrieve.rs:392-411 | no sum wraps if the budget and any one estimate fit 32 bits together |
| `Packer.OverflowExample` | brain/src/retrieve.rs:392-411 | two candidates whose sum wraps, so that more is packed than the budget |
| `Packer.Pack` | brain/src/retrieve.rs:392-418 | the loop makes the greedy choice, in order |
| `MarkerHeader.HeaderRoundTrip` | cli/src/markers.rs:217-238 | reading a written header gives the version and the hash back |
| `Markers.WriteHex` | cli/src/markers.rs:205-213 | the loop writes the digest in lower-case hexadecimal |
| `Markers.HexInjective` | cli/src/markers.rs:198-213 | different digests are written differently |
| `Markers.EnsureSurroundingNewlines` | cli/src/markers.rs:185-195 | the body with a newline before and after it |
| `Markers.OneNewlineBeforeIff` | cli/src/markers.rs:183-195 | a normalised body starts with exactly one newline if and only if the body does not start with two |
| `Markers.OneNewlineAfterIff` | cli/src/markers.rs:183-195 | it ends with exactly one if and only if the body does not end with two |
| `Markers.TwoNewlinesStay` | cli/src/markers.rs:183-195 | a body of two newlines keeps both |
| `Markers.Inject` | cli/src/markers.rs:110-150 | the buffer built is the injected text, or the refusal |
| `Markers.Remove` | cli/src/markers.rs:154-165 | the buffer built is the text without its block |
| `MarkerLaws.LaidIsFound` | cli/src/markers.rs:75-101 | a block behind a text without a start sentinel is found, with its body and recorded hash |
| `MarkerLaws.FindRecovers` | cli/src/markers.rs:75-101 | an injected block is found, with its normalised body and the hash of it, whatever surrounds it |
| `MarkerLaws.InjectReplaces` | cli/src/markers.rs:118-132 | injecting over an untouched block swaps it and keeps all the text around it |
| `MarkerCycles.InjectAppends` | cli/src/markers.rs:133-149 | without a block one is appended behind a blank line |
| `MarkerExample.InjectedText` | cli/src/markers.rs:133-149 | the very text that an injection into an empty file writes |
| `MarkerCycles.LastInjectionWins` | cli/src/markers.rs:110-150 | what was injected before the last injection leaves no trace |
| `MarkerCycles.InjectTwiceIff` | cli/src/markers.rs:110-150 | injecting twice is injecting once if and only if the body holds no end sentinel |
| `MarkerCycles.EditedRefusedIff` | cli/src/markers.rs:118-132 | a hand-edited block is refused without force exactly when its digest changed, and otherwise replaced in place |
| `MarkerCycles.RemoveTakesBlock` | cli/src/markers.rs:154-165 | removal takes out the block and one newline behind it |
| `MarkerCycles.RemoveAfterInject` | cli/src/markers.rs:110-165 | injecting and removing leaves the text and its separator |
| `MarkerCycles.RemoveUndoesIff` | cli/src/markers.rs:110-165 | removal undoes injection exactly for a text that is empty or ends in a blank line |
| `MarkerCycles.SecondCycleIsIdentity` | cli/src/markers.rs:110-165 | after the first cycle, injecting and removing is the identity |
| `MarkerStrays.InjectTwiceStrayIff` | cli/src/markers.rs:75-150 | in a text without a block, injecting twice is injecting once if and only if it has no start sentinel |
| `MarkerStrays.StrayExample` | cli/src/markers.rs:75-150 | a text for which the second injection is not a repeat of the first |
| `Rollback.UndoFileModified` | cli/src/receipts.rs:306-324 | restores the backup unless the file drifted or the backup is missing |
| `Rollback.UndoFileCreated` | cli/src/receipts.rs:326-340 | deletes the file unless it drifted; nothing to do if it is gone |
| `Rollback.UndoMcpEntry` | cli/src/receipts.rs:359-375 | takes the entry out of the registry file, or refuses |
| `Rollback.Rollback` | cli/src/receipts.rs:155-201 | the loop undoes the actions newest first; the summary lists, last first, exactly those that could be undone when their turn came, those that could not, and those left to the user |
| `Rollback.RollbackRestores` | cli/src/receipts.rs:155-201 | from any content a file ends as its original if it is missing or at a recorded version, and untouched otherwise |
| `Rollback.UndriftedIsUndone` | cli/src/receipts.rs:155-201 | an install nobody edited is undone exactly |
| `RollbackSummary.SucceedsIff` | cli/src/receipts.rs:155-201 | an action at a path is undone if and only if the file is missing, or at the version it recorded or a later one |
| `RollbackSummary.UneditedIsReversed` | cli/src/receipts.rs:155-201 | of an install that nobody edited, every action at the path is listed as reversed and none as skipped |
| `RollbackSummary.DriftedIsSkipped` | cli/src/receipts.rs:155-201 | of a file that drifted from every recorded version, every action is listed as skipped and none as reversed |
| `RollbackSummary.NeverReversed` | cli/src/receipts.rs:174-191 | an entry of the search path is always listed as skipped and an exclusion as manual |
| `Rollback.OthersUntouched` | cli/src/receipts.rs:155-201 | paths no action writes are left alone |
| `Rollback.SecondRollbackIdle` | cli/src/receipts.rs:155-201 | a second rollback changes nothing |
| `Rollback.RegistryUndoneIff` | cli/src/receipts.rs:155-201 | an unedited registry file is restored if and only if taking the entry out leaves a version the receipt knows |
| `McpRegistry.StrippedIs` | cli/src/platforms/mod.rs:510-540 | taking a merged entry out again keeps all else and gives the old value back if and only if that listed servers without the entry |
| `McpRegistry.ResidueIs` | cli/src/platforms/mod.rs:510-540 | merging and taking out gives the old text back if and only if it was printed like that and listed servers without the entry |
| `McpRegistry.RegistryRestoredIff` | cli/src/commands/install.rs:234-265 | an unedited registry file that was there before is restored under exactly that condition, and otherwise ends as it would be printed without the entry |
| `McpRegistry.CreatedRegistryStays` | cli/src/commands/install.rs:255-265 | a registry file that the install created is never removed: it stays with an empty list of servers |
| `McpRegistry.RegistryLeftStripped` | cli/src/receipts.rs:359-375 | a file that held an empty object ends with an empty list of servers instead |
| `Calendar.CivilIsValid` | cli/src/receipts.rs:292-304 | every day count yields a date of the proleptic Gregorian calendar, with no unsigned underflow |
| `Calendar.DaysRoundTrip` | cli/src/receipts.rs:292-304 | counting the days up to that date gives the day count back |
| `Calendar.DateRoundTrip` | cli/src/receipts.rs:292-304 | every calendar date is found again from its day count |
| `Calendar.EpochDaysMonotone` | cli/src/receipts.rs:292-304 | later dates count more days |
| `Calendar.EpochIs1970` | cli/src/receipts.rs:292-304 | day 0 is 1 January 1970 |
| `Calendar.ConversionFollowsCalendar` | cli/src/receipts.rs:292-304 | the next day count is always the next day |
| `Calendar.ConversionMonotone` | cli/src/receipts.rs:292-304 | dates come in the order of their day counts |
| `Calendar.NarrowingExact` | cli/src/receipts.rs:292-304 | the cast of the year to 32 bits keeps a date just when its year fits |
| `ReceiptNames.PadFits` | cli/src/receipts.rs:276-289 | padded decimals have their fixed width for every number that fits |
| `ReceiptNames.StampOf` | cli/src/receipts.rs:134-144 | the stamp of a time is the digits of its date, a dash and six digits of its time |
| `ReceiptNames.NamesInOrderIff` | cli/src/receipts.rs:134-144 | a later second has a later file name, whatever the ids, if and only if the earlier date as a number is no larger than the later one without the digits its year has more |
| `ReceiptNames.NamesInOrder` | cli/src/receipts.rs:134-144 | so it has whenever both years have equally many digits |
| `ReceiptNames.NamesTurnAround` | cli/src/receipts.rs:134-144 | the names of the last second of the year 9999 and of the next one sort the other way round |
| `ReceiptNames.NewestFirst` | cli/src/receipts.rs:229-248 | the listing is newest first, up to ties within a second, while years have equally many digits |

## Left out

- `callGraphBfs` and the SQL behind every table: rows are inputs.
- Float rounding, NaN and infinities; u32 community ids; a token counter beyond 32 bits.
- Weights of aggregated graphs, which nothing reads, and whether refined communities are connected.
- Tokenisation, lower-casing, UTF-8 and JSON: tokens, bytes and decoded frames are inputs.
- The fusion of retrieval scores, the two-hop graph search and the reranker.
- Concurrency of the embedding store and of the embedding cache, whose locks make each operation one step.
- The broadcast channel of the bus, of which only the two counters remain.
- I/O errors during a rollback, and the further backups it writes.
- The mutual exclusion of the build lock, which rests on the operating system.
- Real embedding models, speech, images, servers, installers' platform code and the user interface.
- EmbedFile.LoadFile: refuses a corrupt row count as a short file, where the source first reserves room for that many rows and panics or aborts when there is none.
- McpRegistry.RegistryRestoredIff: is about registry files that hold a JSON object of servers, not about the array and TOML formats of other platforms, and reading and printing JSON are parameters.
- ClusterRunner.RunClusters: asks that twice the number of edges fit `usize`, which any list in memory does, because labels are compared with `usize::MAX`.
- EmbedStore.Store.Flush: asks that ids, floats and the row count fit their 128, 32 and 64 bits, which the types of the source give.
- Subscribers.UndrainedIsEvicted: is about sequential runs, because a concurrent change of patterns copies the lag counter.
- Rollback.SecondRollbackIdle: asks that no action writes another's backup, because a rewritten backup no longer holds the recorded version.
- ReceiptNames.NamesInOrderIff: is about years that fit the 32 bits the source gives them, because later ones are cut to negative years.
