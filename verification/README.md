# Verified model of the graph analytics

This project models the in-memory analytics of a code-graph tool: how a call graph and a CPU profile
become attributed cost, and how the graph is prepared for clustering and its clusters are named. It
consists of executable methods that follow the original loops, each proved against a specification, and
of laws proved about those specifications.

- `Scc`, `SccState`, `SccVisit`, `SccFinish`, `Tarjan`: strongly connected components,
  the iterative pass as a state machine with an invariant, and the class over arrays and stacks that runs it.
- `CostNet`, `CostReach`, `CostQuery`, `CostAttribution`, `CostMeaning`, `CostOverRuns`, `Overcharge`: cost
  propagation over components, what it conserves, what a share of the total can be, the breakdown around one
  node, and what all of it says about the stored nodes and call edges.
- `BlastRadius`, `Cycles`: transitive callers, and call cycles.
- `CallTree`, `CallTreeLaws`, `ProfileReader`: samples, subtree totals, frames and call edges of a profile.
- `Resolve`, `Join`, `FrameMeaning`, `Collision`: attaching frames and call edges to stored nodes.
- `Store`, `StoreLaws`, `Enrich`, `EnrichLaws`, `EnrichMeaning`, `EnrichTotals`, `RuntimeFlow`, `Coverage`,
  `Overcount`: the graph store, enrichment as a transition on it, what it writes and what queries read back,
  how its numbers reconcile, and what part of the cost it covers.
- `Symmetrize`, `Strings`, `Labels`, `LabelMeaning`, `LabelLaws`: the undirected projection and the community labels.
- `Sums`, `Graphs`, `Flow`, `Tallies`, `Sorting`, `Numerals`, `Records`: sums and their exchange, reachability,
  flow equations, counting maps, ranking, numerals, and the shared records.

Costs, weights, counts and times are `real`. Node ids, file paths and labels are strings. A JavaScript map
that is only looked up is a `map`; one that is iterated also carries the sequence of its keys in insertion
order. The path helpers of the runtime are given functions (`Resolve.Paths`). Node ids are distinct, as the
primary key of the store makes them. Laws that bound costs assume non-negative self costs and call weights
(`Net.NonNegative`): `DecodedWeights` shows that the edge decoders admit no other weights, and
`RunsNonNegative` that no run stores another metric unless one was loaded.

Where the code and its comments differ, the model follows the code:

- The comments of the cost ranking and of the propagation (src/query/graph_query.ts:393-401, 625-635) say
  that cost is conserved and that `shareOfTotal` is a true fraction. The code divides a callee's cost by the
  inbound weight of the called member, not of its cycle, so a cycle that is called through several members
  is charged out in full through each of them. `Conservation` is the exact law, `ConservedIff` and
  `AlwaysFractionIff` say exactly when the comments hold; `TwoEntriesOvercharge` and `ReportedShareIsTwo` show a failure.
- The labeller promises distinct labels (src/cluster/community_labeler.ts:47-51). They are distinct exactly
  under the condition of `InjectiveIff`; `LabelsCollide` shows a failure.
- Coverage is called a fraction of the profiled cost (src/query/graph_query.ts:822-826). By time it is. By
  samples it is not when the frames carry more samples than the total: with negative hit counts and no ticks,
  or with duplicate node ids, both of which the profile's schema admits. `AlwaysCoveredIff` is the exact
  condition, and `Overcovered` shows both failures.
- The runtime call edges are aggregated per node pair (src/enrich/runtime_join.ts:164-171), but under a key
  that two pairs can share when ids hold an arrow. `PairsListedIff` says exactly when the output loses no pair and
  `JoinedPairsStored` when the store does not; `PairIsLost` shows a loss.

## Model

| member | source | states |
|---|---|---|
| Tarjan.StronglyConnectedComponents | src/query/graph_query.ts:730-795 | For every graph whose successors are in range: two nodes get one component exactly when each reaches the other, the numbers are 0..count-1 and all used, no edge leads to a higher number, and the inner loop runs exactly once per node and once per edge |
| Tarjan.SccPass.Round | src/query/graph_query.ts:754-792 | One turn of the inner loop keeps the whole invariant, unvisits nothing, and is one unit of a progress measure bounded by nodes plus edges |
| Tarjan.SccPass.ExamineNext | src/query/graph_query.ts:758-774 | Examining a successor is the visit, the lowering or the skip that the state machine prescribes |
| Tarjan.SccPass.PopComponent | src/query/graph_query.ts:776-784 | The pop loop removes exactly the stacked nodes from the root on; the stack is never empty inside it, so its fallback for an absent element is dead code |
| Tarjan.SccPass.FinishTop | src/query/graph_query.ts:775-792 | A finished node either closes a component at its position of the component stack or merges its frame into its parent, which then exists |
| SccVisit.DiscoverNextInv | src/query/graph_query.ts:762-769 | Visiting an unvisited successor keeps the invariant |
| SccVisit.ExamineInv | src/query/graph_query.ts:770-773 | Stepping over a visited successor keeps the invariant |
| SccFinish.MergeInv | src/query/graph_query.ts:785-791 | Leaving a node that is no root keeps the invariant; its low points below it on the stack |
| SccFinish.FinishInv | src/query/graph_query.ts:775-784 | Closing a component keeps the invariant: what is popped is mutually reachable and no edge leaves it for a node without a component |
| SccFinish.FinalNumbering | src/query/graph_query.ts:794 | The invariant with every node visited and an empty work stack is the specification of the numbering |
| SccFinish.ReachDown | src/query/graph_query.ts:726-727 | Component numbers never rise along a path |
| CostNet.Net.InclusiveUnique | src/query/graph_query.ts:677-693 | The propagation equations have at most one solution |
| CostNet.Net.InclusiveExists | src/query/graph_query.ts:677-693 | The propagation equations have a solution, by recursion on component numbers |
| CostNet.Net.InclusiveNonNegative | src/query/graph_query.ts:677-693 | Non-negative self costs and counts give non-negative inclusive costs |
| CostNet.Net.SharesOfNode | src/query/graph_query.ts:668-675 | The shares a node hands to its callers add up to one if it has positive external inbound weight and to zero otherwise |
| CostNet.Net.Conservation | src/query/graph_query.ts:668-693 | On every graph, cyclic or not: the sum over components of (1 - entries) times inclusive cost is the total self cost |
| CostNet.Net.ConservedIff | src/query/graph_query.ts:632-634 | The uncalled components account for exactly the total self cost if and only if no component with two or more entries carries cost; otherwise they account for more |
| CostNet.Net.SingleEntryConserves | src/query/graph_query.ts:668-693 | With at most one entry per component the uncalled components account for exactly the total |
| CostNet.Net.Duality | src/query/graph_query.ts:677-693 | The bottom-up inclusive cost equals the sum of all self costs weighted by top-down responsibilities |
| CostNet.Net.InclusiveMonotone | src/query/graph_query.ts:677-693 | Measuring more self cost anywhere over the same calls lowers no inclusive cost |
| CostNet.Net.ShareIsFraction | src/query/graph_query.ts:797-809 | When no responsibility of a component exceeds one, its share of the total lies in [0,1] |
| CostNet.Net.AlwaysFractionIff | src/query/graph_query.ts:797-809 | The share of a component is a true fraction under every measurement if and only if none of its responsibilities exceeds one |
| CostNet.Net.SingleEntryFraction | src/query/graph_query.ts:393-401 | With at most one entry per component every share of the total is a true fraction |
| CostNet.Net.CalleesExplainInclusive | src/query/graph_query.ts:461-476 | Over a component, members' self costs plus all callee amounts make up its inclusive cost |
| CostNet.Net.CallersExplainInclusive | src/query/graph_query.ts:478-490 | The amounts attributed to the callers of a node with inbound weight add up to its whole inclusive cost |
| CostNet.Net.CalleesWithinInclusive | src/query/graph_query.ts:461-476 | The callee amounts of one node are between zero and its inclusive cost |
| CostReach.RespReach | src/query/graph_query.ts:677-693 | A node is charged for another only along a call path |
| CostReach.InclusiveWithinReach | src/query/graph_query.ts:677-693 | With single-entry components each inclusive cost lies between zero and the self cost reachable from the node |
| CostReach.AcyclicConserves | src/query/graph_query.ts:632-634 | An acyclic call graph has single-entry components, and the inclusive costs of the nodes without positive inbound weight add up to exactly the total self cost |
| CostReach.NumberedValid | src/query/graph_query.ts:655-661 | The numbering of the component pass is a valid order for the propagation |
| CostReach.TwoEntriesOvercharge | src/query/graph_query.ts:671-688 | A two-node cycle called through both members charges its caller twice the total: a concrete failure of conservation and of the true fraction |
| CostReach.TwoEntriesNumbered | src/query/graph_query.ts:655-661 | The graph of that failure is numbered as the component pass numbers it |
| CostReach.InclusiveIgnoresNumbering | src/query/graph_query.ts:677-693 | The inclusive cost of a node does not depend on the order in which components are numbered |
| CostQuery.IndexNodes | src/query/graph_query.ts:638-640 | Every node id is mapped to an index that holds it |
| CostQuery.BuildAdjacency | src/query/graph_query.ts:642-653 | The adjacency lists hold exactly the edges between two different known nodes, in edge order |
| CostQuery.GroupComponents | src/query/graph_query.ts:656-666 | Sizes, summed self costs and members per component |
| CostQuery.ExternalInbound | src/query/graph_query.ts:668-675 | Each node's call weight from outside its component |
| CostQuery.Propagate | src/query/graph_query.ts:677-693 | The single forward pass solves the propagation equations; every value it reads is final |
| CostQuery.StaysSettled | src/query/graph_query.ts:677-693 | A later component leaves settled equations settled |
| CostQuery.ComputeCostModel | src/query/graph_query.ts:636-722 | The whole model: an index-level problem posed by nodes and edges, its unique inclusive costs, and every map entry of every node |
| CostQuery.CostModelUnique | src/query/graph_query.ts:636-722 | The reported total and every inclusive cost are determined by the nodes and edges alone |
| CostQuery.CostModelReports | src/query/graph_query.ts:636-722 | Every cost model of an input reports the total and the inclusive costs of any numbered problem that the input poses |
| CostMeaning.InclusiveCostMeaning | src/query/graph_query.ts:625-693 | Told by ids alone: a reported inclusive cost is, over all nodes that call each other with the node, their own metric and for each call out of the cycle the callee's inclusive cost divided by count among the calls that enter the callee from outside its cycle |
| CostAttribution.FlowOfCall | src/query/graph_query.ts:462-490 | A crossing call has the same amount among the caller's callees and the callee's callers, namely what it draws in the propagation |
| CostAttribution.Callees | src/query/graph_query.ts:461-476 | One flow per call that leaves the component, in edge order |
| CostAttribution.Callers | src/query/graph_query.ts:478-490 | One flow per call that enters the node from outside its component, in edge order |
| CostAttribution.Attribute | src/query/graph_query.ts:443-495 | Unknown exactly when no node has the id; otherwise the breakdown of that node over the same propagation |
| CostMeaning.NodeMeaning | src/query/graph_query.ts:797-809 | The node shows its own metric, its inclusive cost, and that cost over the sum of all nodes' metric |
| CostMeaning.CallersMeaning | src/query/graph_query.ts:478-490 | The callers are exactly the call edges that enter the node from outside its cycle, in order, each charged the node's inclusive cost by its count among them |
| CostMeaning.CalleesMeaning | src/query/graph_query.ts:461-476 | The callees are exactly the call edges that leave the cycle at the node, in order, each with the callee's inclusive cost by its count among those that enter the callee, and that amount over the node's inclusive cost |
| CostMeaning.CycleSizeMeaning | src/query/graph_query.ts:797-809 | The reported cycle size is the number of nodes that the node calls and is called by, and cyclic means more than one |
| CostAttribution.CallersAddUp | src/query/graph_query.ts:478-490 | Caller amounts add up to the inclusive cost and caller shares to one, if the node has inbound weight |
| CostAttribution.CalleesAddUp | src/query/graph_query.ts:461-476 | Callee amounts are the node's drawn cost and callee shares add up to at most one |
| CostOverRuns.EnrichNonNegative | src/enrich/runtime_enricher.ts:133-140 | Enrichment keeps the stored metrics non-negative |
| CostOverRuns.RunsNonNegative | src/enrich/runtime_enricher.ts:68-130 | Over every run whose loaded nodes carry no negative metrics, stored metrics are non-negative |
| CostOverRuns.SharesOverRuns | src/query/graph_query.ts:797-809 | Over every such run: when no component is entered through more than one member, every reported share of the total is a true fraction |
| CostOverRuns.AcyclicSharesOverRuns | src/query/graph_query.ts:797-809 | Over every such run every reported share is a true fraction on an acyclic call graph |
| Overcharge.ReportedShareIsTwo | src/query/graph_query.ts:797-809 | Three stored nodes and four call edges for which every cost model reports a share of two |
| CallTree.SubtreeSamples | src/enrich/cpu_profile.ts:192-223 | Ends on every input, cyclic or shared, with a total for every node; on a forest each total is the node's own samples plus its children's totals |
| CallTree.TotalFrom | src/enrich/cpu_profile.ts:196-220 | One root's stack pass is the functional pass; every push takes a node neither totalled nor stacked |
| CallTree.StaysTotalled | src/enrich/cpu_profile.ts:213-220 | A finished total stays correct when later nodes finish |
| CallTree.RunAllTotals | src/enrich/cpu_profile.ts:192-223 | All passes together total every listed node, and over a forest every total is the node's own samples plus its children's totals |
| CallTreeLaws.TotalOfDescendants | src/enrich/cpu_profile.ts:187-190 | On a forest with distinct ids a total is the samples of the node and all its descendants, whatever the node order |
| CallTreeLaws.RootTotals | src/enrich/cpu_profile.ts:192-223 | Root totals add up to the samples on known nodes |
| CallTreeLaws.EdgeTotals | src/enrich/cpu_profile.ts:140-158 | Child totals over the tree add up to samples times depth |
| CallTreeLaws.ForestDepth | src/enrich/cpu_profile.ts:140-158 | Every forest has a depth, the number of callers above each node |
| ProfileReader.SamplesByNode | src/enrich/cpu_profile.ts:169-185 | Ticks per node, or the last positive hit count when there are no ticks |
| ProfileReader.Aggregate | src/enrich/cpu_profile.ts:84-122 | One frame per node that has samples, in node order: its function, url, one-based line and column, the number of its ticks (or its last positive hit count), and as self time the positive deltas at the positions of its own ticks |
| ProfileReader.TotalSamples | src/enrich/cpu_profile.ts:126-131 | The number of ticks, or the summed hit counts |
| ProfileReader.FramesWithinTotal | src/enrich/cpu_profile.ts:84-131 | With distinct ids the frames carry at most the total plus its negative hit counts, and exactly that when every tick is on a known node |
| ProfileReader.FramesTime | src/enrich/cpu_profile.ts:79-82 | With distinct ids the frames' self times add up to at most the positive deltas of the ticks, and to exactly those when every tick is on a known node |
| ProfileReader.CallEdges | src/enrich/cpu_profile.ts:140-158 | One edge per listed known child, in the order of nodes and children: the caller is the listing node, the callee the last node with the child's id, lines are one-based, and the samples are that child's subtree total |
| ProfileReader.ForestTotals | src/enrich/cpu_profile.ts:192-223 | On every profile whose known nodes form a forest, the subtree totals that weigh the call edges are the right ones |
| ProfileReader.TotalsOfDescendants | src/enrich/cpu_profile.ts:187-190 | On a forest with distinct ids such a total is the samples of the node and all nodes below it |
| ProfileReader.NodeBalance | src/enrich/cpu_profile.ts:140-158 | A node's subtree total is its own samples plus the weights of its outgoing call edges |
| ProfileReader.CallEdgeTotals | src/enrich/cpu_profile.ts:140-158 | On a forest with distinct ids all call-edge weights add up to each node's samples times its depth |
| ProfileReader.CallEdgeTotalsByCallers | src/enrich/cpu_profile.ts:140-158 | On every forest with distinct ids they add up to each node's samples times the number of callers above it |
| Resolve.ResolveFilePath | src/enrich/runtime_join.ts:314-344 | Nothing for an empty or internal url; a listed file for a url without absolute path; the path below the root when it is listed; otherwise a file exactly when it is the only listed one that the absolute path equals or ends with at a slash |
| Resolve.UniqueMatchIff | src/enrich/runtime_join.ts:333-343 | A suffix match is chosen exactly when it is the only file the path matches |
| Resolve.EnclosingNode | src/enrich/runtime_join.ts:286-306 | The loop returns the innermost enclosing node, and none only when no proper range holds the line |
| Resolve.Innermost | src/enrich/runtime_join.ts:286-306 | The innermost node is minimal by span, then by latest start, then by list position |
| Resolve.InnermostUnique | src/enrich/runtime_join.ts:280-285 | The innermost node is determined by its specification |
| Resolve.InnermostContained | src/enrich/runtime_join.ts:280-285 | In a file of nested or disjoint ranges it lies inside every other enclosing range |
| Resolve.ResolveNode | src/enrich/runtime_join.ts:236-253 | Name before range, the range deciding between several names |
| Resolve.ResolutionMeaning | src/enrich/runtime_join.ts:236-253 | What each outcome promises: the only node so named, the innermost of several that enclose the line, the innermost enclosing node of a file without such a name, or the cause of the drop |
| Resolve.FrameResolvesToStored | src/enrich/runtime_join.ts:206-217 | A frame is attached only to a stored node |
| Resolve.NamedIff | src/enrich/runtime_join.ts:260-278 | A node is matched by name exactly when it is a function, method, property, variable or class with the frame's whole name or its last dotted part |
| Resolve.DottedNameResolves | src/enrich/runtime_join.ts:255-266 | A frame named after an owner is attached to the only node of the file with that last name |
| FrameMeaning.FrameOutcome | src/enrich/runtime_join.ts:206-306 | For every frame, told by the stored nodes alone: the only node of the url's file that it names, the tightest of several that hold its line, the tightest that holds the line when none is named, or the cause of the drop |
| FrameMeaning.DropKeyReads | src/enrich/runtime_join.ts:360-379 | The text of a drop group: cause, function, url, and the line unless the file is unknown |
| Join.IndexByFile | src/enrich/runtime_join.ts:219-230 | Buckets per file in node order, files in order of first use |
| Join.JoinFrames | src/enrich/runtime_join.ts:100-162 | The loop accounts for exactly the given frames |
| Join.JoinOfAccounts | src/enrich/runtime_join.ts:116-147 | Every counter and map of the result is the count or tally of the matched or the dropped frames |
| Join.JoinConserves | src/enrich/runtime_join.ts:100-162 | Matched plus dropped is the input in frames, samples and time; attributions and drop groups add up to their totals; every match is by name or by range |
| Join.AttributedToStored | src/enrich/runtime_join.ts:132-135 | Samples are attributed only to stored nodes |
| Join.JoinCallEdges | src/enrich/runtime_join.ts:172-203 | The loop computes the aggregation of the joined edges and counts the rest |
| Join.JoinedIff | src/enrich/runtime_join.ts:172-192 | A call edge is joined exactly when both its ends resolve, to different nodes, and then from the caller's node to the callee's |
| Join.CallJoinConserves | src/enrich/runtime_join.ts:172-203 | Matched plus dropped edges is the input, output samples plus dropped samples is the input, no output edge joins a node to itself, and there are at most as many output edges as matched ones |
| Join.PairsListedIff | src/enrich/runtime_join.ts:193-199 | Every joined edge's pair is in the output if and only if no two joined edges with different pairs share a key |
| Join.CallJoinExact | src/enrich/runtime_join.ts:193-199 | When the joined edges' keys are exact, the output lists exactly their pairs, once each, with exactly their inputs' samples |
| Join.ArrowFreeKeysExact | src/enrich/runtime_join.ts:193 | Keys are exact when no caller's id holds an arrow |
| Collision.PairIsLost | src/enrich/runtime_join.ts:172-203 | Two call edges between four stored nodes, both joined, of which the output keeps one pair and loses the other |
| Store.KuzuStore.Load | src/store/kuzu_store.ts:41-67 | Nodes are inserted or replaced, then edges merged; an edge with a missing end is skipped |
| StoreLaws.LoadedNode | src/store/kuzu_store.ts:41-55 | After a load a row holds the fields of the last loaded node with its id, absent ranges as zeros; other rows are unchanged |
| StoreLaws.WrittenEdge | src/store/kuzu_store.ts:76-91 | After edges are written, ends and kind carry the metadata of the last written edge with them, and an edge with a missing end is not stored |
| StoreLaws.RowReads | src/store/kuzu_store.ts:108-121 | A row handed out has the fields of the node it stands for |
| Store.KuzuStore.WriteEdges | src/store/kuzu_store.ts:76-91 | Edges are merged by from, to and kind |
| Store.KuzuStore.ClearEdgesByKind | src/store/kuzu_store.ts:98-101 | Exactly the edges of the kind are removed |
| Store.KuzuStore.ReadNodes | src/store/kuzu_store.ts:108-121 | Every stored row, once |
| Store.KuzuStore.WriteNodeMetadata | src/store/kuzu_store.ts:128-139 | The metadata of the named stored nodes is replaced, unknown ids skipped |
| Store.KuzuStore.WriteGraphMeta | src/store/kuzu_store.ts:146-149 | One metadata row is set, all else unchanged |
| Store.MetaReads | src/store/kuzu_store.ts:146-164 | What is read after a record was written or cleared: the new state of its key, the old one of every other |
| Store.KuzuStore.ClearGraphMeta | src/store/kuzu_store.ts:161-164 | One metadata row is removed, all else unchanged |
| Store.RowsDistinct | src/store/kuzu_store.ts:108-121 | The rows handed to the queries have distinct ids |
| Store.SetEachNodes | src/store/kuzu_store.ts:128-139 | Entries with distinct ids set the metadata of exactly the stored nodes they name |
| Store.MergeEdgesFrame | src/store/kuzu_store.ts:76-91 | Merging edges touches no node and no metadata row and keeps edge ends stored |
| Enrich.Updates | src/enrich/runtime_enricher.ts:74-94 | One update per attributed stored node, with distinct ids, keeping its other metadata, and the hotspot of the same node beside it |
| Enrich.UpdatesAttach | src/enrich/runtime_enricher.ts:74-96 | Writing the updates attaches the metrics to exactly the attributed nodes |
| Enrich.RankHotspots | src/enrich/runtime_enricher.ts:114 | The hotspots are the attributed stored nodes, once each, with their metrics, by self time and then by samples, the largest first |
| Enrich.HottestFirst | src/enrich/runtime_enricher.ts:114 | No hotspot has less self time than a later one, nor fewer samples at equal self time |
| Enrich.Enrich | src/enrich/runtime_enricher.ts:68-130 | The step-by-step method takes the store to the enriched store; its report carries the join, the manifest, the call join, the number of matched nodes, the rounded matched time and the ranked hotspots |
| EnrichLaws.EnrichKeeps | src/enrich/runtime_enricher.ts:61-67 | No node field, no other metadata key, no other graph fact and no other edge kind changes |
| EnrichMeaning.NodeMetricsRead | src/enrich/runtime_enricher.ts:133-140 | Every node that a frame is attached to carries the source, the samples and the self time of all frames attached to it and that time in rounded milliseconds; every other node keeps its metadata |
| EnrichMeaning.RoundsHalfUp | src/enrich/runtime_enricher.ts:153-156 | Rounding goes to the nearest whole number, and up from the middle |
| EnrichMeaning.ManifestReads | src/enrich/runtime_enricher.ts:100-107 | The stored manifest, field by field, as sums over all frames and over the attached ones |
| EnrichMeaning.ManifestIff | src/query/graph_query.ts:507-514 | A record reads as a manifest exactly when every field is there and of its kind |
| EnrichMeaning.HotspotReads | src/enrich/runtime_enricher.ts:88-95 | A reported hotspot shows a stored node's own fields and the metrics it was given |
| EnrichMeaning.TargetReads | src/enrich/runtime_join.ts:219-230 | The join sees the stored rows' own ids, kinds, names, files and lines |
| EnrichLaws.EnrichIdempotent | src/enrich/runtime_enricher.ts:61-67 | Enriching twice with one profile leaves the whole store as enriching once does |
| EnrichLaws.RuntimeEdgesExact | src/enrich/runtime_enricher.ts:108-112 | Afterwards the runtime call edges are exactly the aggregation's output for this profile: none stale, none skipped for a missing end |
| EnrichLaws.JoinedPairsStored | src/enrich/runtime_enricher.ts:109-112 | Every stored runtime edge joins the ends of a call edge of this profile, and the ends of all joined call edges are stored if and only if no two of them with different ends share a key |
| EnrichLaws.StoredSamplesExact | src/enrich/runtime_enricher.ts:142-151 | When no two joined call edges with different ends share a key, the runtime edge stored for a joined pair carries exactly the samples of the call edges that join it |
| RuntimeFlow.ReadRuntimeCallEdges | src/query/graph_query.ts:563-575 | The runtime call edges, once each and in any order, with their decoded samples; one when absent or negative |
| RuntimeFlow.ReadCallEdges | src/query/graph_query.ts:532-544 | The static call edges, once each and in any order, with their decoded counts; one when absent or not positive |
| RuntimeFlow.ResolveFlowEdges | src/query/graph_query.ts:552-561 | The runtime edges when asked for and present, the static ones otherwise, and whether that was a fallback |
| RuntimeFlow.DecodedWeights | src/query/graph_query.ts:869-880 | A stored weight is read back, and a missing or improper one as one, so no decoded call weight is negative and no static one is zero |
| RuntimeFlow.RuntimeEdgesReadBack | src/enrich/runtime_enricher.ts:108-112 | Reading back after an enrichment with exact keys gives one edge per pair of nodes that joined call edges join and no other, weighing exactly their samples |
| RuntimeFlow.RuntimeFlowConserved | src/enrich/runtime_enricher.ts:108-112 | On every profile the weights read back add up to exactly the samples of the joined call edges |
| EnrichLaws.RunsStaySound | src/store/kuzu_store.ts:41-101 | Over every run of loads, enrichments and clears, edge ends are stored nodes and rows are listed once |
| EnrichTotals.SamplesReconcile | src/enrich/runtime_enricher.ts:98-105 | On a store without earlier metrics the node samples add up to the manifest's matched samples |
| EnrichTotals.CostTotalIsMatchedSamples | src/query/graph_query.ts:700-711 | The total self cost of the cost query in samples, over whatever call edges, is the manifest's matched samples |
| EnrichTotals.SelfTimeReconciles | src/enrich/runtime_enricher.ts:153-156 | The rounded self times add up to the matched time to within 0.0005 ms per attributed node |
| EnrichTotals.CostTotalIsMatchedTime | src/query/graph_query.ts:700-711 | The total self cost of the cost query in time is the matched time up to that rounding |
| EnrichTotals.MeasuredNodesAreMatched | src/query/graph_query.ts:710-712 | On a store without earlier metrics the cost query's number of measured nodes is the number of matched nodes |
| EnrichTotals.AllAttributedStored | src/enrich/runtime_enricher.ts:77-83 | Every attribution has a stored node, so the reported number of matched nodes is the number of attributions |
| Enrich.ManifestRoundTrip | src/schema/runtime_manifest.ts:18-24 | A manifest that was written as metadata is read back unchanged |
| Coverage.ManifestAfterEnrich | src/enrich/runtime_enricher.ts:98-105 | After an enrichment the store holds exactly its manifest |
| Coverage.ManifestOverRuns | src/query/graph_query.ts:507-514 | Over every run of loads, enrichments and clears, the manifest a query reads is that of the last enrichment that no clearing of its key followed |
| Coverage.CoverageAfterEnrich | src/query/graph_query.ts:827-835 | After an enrichment coverage by time is matched time over matched plus dropped time, and by samples matched samples over the profile's total; none when that is not positive |
| Coverage.MatchedMicrosWithinTotal | src/enrich/runtime_enricher.ts:98-105 | Matched time is a part of the total time on every profile |
| Coverage.MatchedSamplesWithinTotal | src/enrich/runtime_enricher.ts:98-105 | On every profile matched and dropped samples make up the frames' samples; with distinct ids those are at most the ticks, or the summed hits plus the negative ones |
| Coverage.CoverageIsFraction | src/query/graph_query.ts:827-835 | Coverage by time lies in [0,1] on every profile; coverage by samples does when the frames carry no more samples than the total, so with distinct ids whenever there are ticks or no negative hit count |
| Coverage.CoverageOverRuns | src/query/graph_query.ts:827-835 | Over every run the coverage by time that a query reports is a true fraction |
| Overcount.AlwaysCoveredIff | src/query/graph_query.ts:827-835 | Coverage by samples is at most one in every store, for all path helpers and wherever the frames lie, if and only if the frames carry no more samples than the profile's total or that total is not positive |
| Overcount.AlwaysCoveredDistinct | src/query/graph_query.ts:827-835 | With distinct profile ids: if and only if there are ticks, or no negative hit count, or no positive total |
| Overcount.Overcovered | src/query/graph_query.ts:827-835 | Two profiles, one with a negative hit count and one with a duplicate id, whose coverage by samples is two |
| BlastRadius.ReachableCount | src/query/graph_query.ts:605-622 | Ends on every graph and counts exactly the distinct other nodes with a call path to the start |
| BlastRadius.BlastRadiusSizes | src/query/graph_query.ts:587-602 | The blast radius of every node is the number of its distinct ancestors |
| BlastRadius.Explored | src/query/graph_query.ts:605-622 | When nothing is pending, the visited nodes other than the start are exactly its ancestors |
| BlastRadius.SumInbound | src/query/graph_query.ts:578-584 | The summed edge weight per callee |
| BlastRadius.MutualCallersShareRadius | src/query/graph_query.ts:587-602 | Nodes that reach each other have equal blast radii |
| Cycles.StrongCycles | src/query/graph_query.ts:279-300 | Groups of at least two nodes, largest first, no node twice; two different nodes share a group exactly when each transitively calls the other |
| Cycles.SameReach | src/query/graph_query.ts:280-292 | Reaching by index is reaching by id |
| Cycles.CycleSharesRadius | src/query/graph_query.ts:272-278 | All members of a reported cycle have the same blast radius |
| Symmetrize.IndexNodes | src/cluster/community_detector.ts:117-129 | Exactly the ids touched by an edge are numbered, bijectively onto 0..n-1 |
| Symmetrize.SymmetrizeEdges | src/cluster/community_detector.ts:132-158 | Distinct pairs source < target < n, exactly one for every two different nodes that an input edge joins and none else, each weighing the sum of the edges in either direction |
| Symmetrize.ParsePairText | src/cluster/community_detector.ts:143-154 | Reading a key back gives the pair it was made from |
| Symmetrize.WeightConserved | src/cluster/community_detector.ts:131-158 | The total weight is the input's without its self-loops |
| Symmetrize.ResultInvariant | src/cluster/community_detector.ts:60-64 | Reversing and reordering the input leaves exactly the same weighted pairs of nodes, whatever numbering was used |
| Numerals.NumberDecimal | src/cluster/community_detector.ts:145-154 | Printing and reading a number is the identity |
| Numerals.NoLeadingZero | src/cluster/community_detector.ts:145-154 | A printed number has no leading zero |
| Labels.GroupMembers | src/cluster/community_labeler.ts:67-82 | The communities with a member, in order of first appearance, and their members in node order |
| Labels.InternalDegree | src/cluster/community_labeler.ts:89-104 | Each node's weight of edges inside its community, without self-loops |
| LabelMeaning.DegreeMeaning | src/cluster/community_labeler.ts:84-104 | When the nodes cover the partition, a member's weight is what joins it to the other members of its community, in either direction |
| Labels.Hub | src/cluster/community_labeler.ts:111-127 | The member that comes before all others by degree, name and id |
| LabelMeaning.HubHasMostWeight | src/cluster/community_labeler.ts:106-110 | No member has more weight than the hub; ties go to the first name, then the first id |
| Labels.HubName | src/cluster/community_labeler.ts:111-127 | The hub's display name, none only for an empty group |
| LabelMeaning.Shown | src/cluster/community_labeler.ts:129-135 | A module is shown by the stem of its file name, any other node by its name |
| Labels.DominantDirectory | src/cluster/community_labeler.ts:162-179 | The directory that comes before all others by members, length and name, and its fraction |
| LabelMeaning.DominantLeads | src/cluster/community_labeler.ts:158-179 | No directory directly holds more members than the dominant one; ties go to the shorter path, then to the first |
| Labels.ComposeLabel | src/cluster/community_labeler.ts:138-156 | The file name, the area with or without the hub, the hub, or the ordinal |
| LabelMeaning.ComposedAcross | src/cluster/community_labeler.ts:147-155 | Across several files with a hub: the last part of the leading directory and the hub when at least three fifths of the members lie directly in it, else the hub alone; without a hub that part, else the number |
| LabelMeaning.OneLastPart | src/cluster/community_labeler.ts:216-223 | A directory has one last part |
| LabelMeaning.ComposedInFile | src/cluster/community_labeler.ts:142-145 | In a single file: the stem of its name |
| LabelMeaning.ComposedUnnamed | src/cluster/community_labeler.ts:142-145 | In a single file without a name: the hub, or the number |
| LabelMeaning.ComposedOfNone | src/cluster/community_labeler.ts:138-141 | Without members: the number |
| Strings.PathParts | src/cluster/community_labeler.ts:210-223 | A path splits into its directory and its last part; a bare name has no directory |
| Strings.BaseNameOfStem | src/cluster/community_labeler.ts:225-231 | The base name of a file with an extension is what precedes the last dot |
| Strings.BaseNameOfPlain | src/cluster/community_labeler.ts:225-231 | Without a dot, or with a leading one only, the base name is the whole file name |
| Strings.LessIff | src/cluster/community_labeler.ts:121-124 | Text order is decided by the first place where the texts differ, or by being a proper prefix |
| Labels.Disambiguate | src/cluster/community_labeler.ts:195-208 | Exactly the labels that another community carries are renamed |
| LabelMeaning.HubStepReads | src/cluster/community_labeler.ts:186-190 | A label that another community carries gains the hub after the separator, unless there is no hub or the label says it already; others stay |
| LabelMeaning.IndexStepReads | src/cluster/community_labeler.ts:191-191 | A label that another community still carries gains the number after a hash; others stay |
| Labels.Label | src/cluster/community_labeler.ts:52-64 | The whole labelling |
| LabelLaws.LabelsFollowMembers | src/cluster/community_labeler.ts:32-44 | Renumbering communities and reordering nodes and edges keeps a community's label, unless it was still shared at the last step: then it agrees exactly if the number is unchanged |
| LabelLaws.DominantUnique | src/cluster/community_labeler.ts:162-179 | The dominant directory does not depend on member order |
| LabelLaws.HubUnique | src/cluster/community_labeler.ts:111-127 | The hub does not depend on member order |
| LabelLaws.ComposedUnique | src/cluster/community_labeler.ts:138-156 | The label composed for the same members is the same whatever their order and their number |
| LabelLaws.InjectiveIff | src/cluster/community_labeler.ts:47-51 | The final labels are distinct if and only if no unshared label reads like a shared one with its number appended |
| LabelLaws.InjectiveWithoutNumbers | src/cluster/community_labeler.ts:186-192 | The final labels are distinct unless some label entering the last step ends in a number |
| LabelLaws.InjectiveWithoutHashes | src/cluster/community_labeler.ts:47-51 | The final labels are distinct whenever no node name and no file path holds a hash |
| LabelLaws.LabelsCollide | src/cluster/community_labeler.ts:52-64 | Three one-node communities whose final labels are not distinct |

## Left out

- Display order: the sorting, filtering and limiting of the hotspot query, of cost rankings, attribution lists and drop groups, which uses the locale's string order; the two lists of an attribution and the drop groups are modelled unsorted or as maps.
- `deadExports` and `campaign_planner`: they filter and rank what the Cypher queries return. `graph_builder`: it collects the extractors' nodes and edges before they are loaded.
- Community detection itself: the optimisation runs in a library outside the repository and is stochastic.
- Cypher (with it the depth-bounded blast radius of a single symbol), connections and result handles of the store; JSON and schema decoding and encoding other than that of call weights and of the manifest; the extractors, the command line, rendering, benchmarks and Git.
- Floating point: all arithmetic is exact over `real`, so rounding appears only where the code rounds.
- Strings: compared by character, which differs from the runtime's code-unit order only beyond the basic plane.
- Profiles: an absent hit count, child list, tick list or delta list is zero or empty; the last two are not distinguished from empty ones by the code either.
- Attributions and drop groups: each record of samples and time is modelled as two maps with the same keys instead of one map of records updated in place, so aliasing of a record is not captured; a drop group's label and reason are part of its key.
- Adjacency lists and per-component lists are sequences of sequences replaced on update; the arrays of the component pass and of the propagation are arrays.
- Row order of `readNodes`: the database promises none; the model reads rows in insertion order, and the properties of the join and of the cost model hold for whatever order the rows come in.
- Tarjan.SccPass: groups the local variables of the original function into one object so that its steps can be methods.
- Enrich.Enrich: the report holds the two join results rather than their copied fields.
- Enrich.Updates: the order of the attributions is left open, so hotspots with equal time and samples may come in any order.
- CostQuery.ComputeCostModel: it takes the nodes and the call edges as given; its callers read them with `KuzuStore.ReadNodes` and `RuntimeFlow.ResolveFlowEdges`.
- Enriching with a second, different profile: node metrics of the first profile are not cleared by the code; only the runtime edges are, which is what is proved.
