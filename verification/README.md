# Salgil evacuation backend: a verified model

Salgil plans evacuations and keeps track of them. This project models the parts of its backend
where a mistake sends somebody the wrong way or leaves somebody out, and proves what they promise.

- **Road graphs** (`Geometry`, `Walks`, `RoadGraphs`, `Junctions`, `Sums`, `Chains`, `ChainSteps`, `Contraction`,
  `Loading`, `ShapePoints`, `Profiles`). Roads are loaded per transport mode into an undirected graph with a grid index;
  shape points of degree 2 are contracted away, junction-free rings get a junction, and long chains are cut
  every 150 m. The contraction's contract is `Contraction.IsContraction`; its proof rests on one local fact per
  original edge (`Chains.LocalStep`).
- **Routing** (`Hazard`, `Routes`, `Search`, `Expansion`, `Reporting`, `Planner`, `RouteLaws`,
  `RouteMeasures`, `ReportedRisks`, `Connectivity`, `ContractedRoutes`). A time-dependent label-setting search: whether an edge may be entered, and at what cost,
  depends on when. `Routes.Outcome` says what the search must answer, without mentioning queues or labels;
  `Planner.Plan` meets it, and the laws in `RouteLaws` and `Connectivity` compare any two answers.
  For every valid query `Plan` returns such an answer, so none of these laws is about nothing.
- **Workflow** (`Workflow`, `WorkflowService`, `PlanHistory`, `AuditReplay`, `ContactSafety`, `ContactRounds`,
  `FieldTasks`, `Requests`, `PlanLog`). Versioned plans, approvals, contact rounds, field tasks and reports over tables with an
  append-only log. Each request is one transaction: a function on the tables (`Workflow`), implemented by the
  methods of `WorkflowService.Service`. `Requests` says row by row, without those functions, when each request is
  accepted and what it changes; the other modules prove invariants over all sequences of requests.
- **Events** (`Events`, `Broadcast`). Events wait in a session's outbox, leave it when the session commits, and
  reach bounded drop-oldest queues. `Events` has the classes, `Broadcast` the system of all their interleavings.
- **Cache** (`FiniteSets`, `Cache`, `SingleFlight`). A bounded cache with expiry, and every interleaving of the tasks that ask
  it for values through per-key locks.

Iteration orders that the program leaves open (sets, dictionaries, ties) are left open here too, by `:|` in
methods and by predicates that do not mention an order. Floats are reals, the haversine formula is any
symmetric non-negative distance, and the clock, tag normalisation and factories are parameters.

Where the program and its own documentation disagree, the model follows the program:

- `nearest_node` is documented to return the nearest node. It stops at the first ring of cells that brings
  nothing closer, so it may not (`RoadGraphs.SnapMayMissNearest`); `RoadGraphs.SnapRightExactly` says of each call
  when it does.
- The comment at `app/routing/graph.py:43-44` bounds the snapping error by half the spacing. It may be larger
  (`ShapePoints.HalfSpacingFails`); `ShapePoints.HalfSpacingExactly` says when it is not, and
  `ShapePoints.SnapError` gives the bound that always holds, half of the spacing plus one edge.
- The answer "not connected" says that hazards are not the cause and no road leads there. The time budget can
  also be the cause (`Connectivity.BudgetReadsAsDisconnected`), and `Connectivity.NotConnectedExactly` says when.
- The comment at `app/routing/planner.py:189-190` has risks reported for the time of passing. They are read at
  unpenalised times counted from zero, not from the departure, and may show less (`ReportedRisks.ReportUnderstates`),
  never more (`ReportedRisks.NeverOverstated`); `ReportedRisks.ClocksAgreeExactly` says when the times are the same.
- The contraction is said to leave routes as they were. Components of two nodes joined by exactly two coincident
  edges disappear (`ShapePoints.TwinsAreLost`); `Contraction.Coverage` says that nothing else does.
- One call turns communities that did not answer into field tasks, skipping those already covered; it may still give
  one community two (`FieldTasks.TwoTeamsForOne`), and `FieldTasks.DuplicatesExactly` says exactly when.

## Model

| member | source | states |
|---|---|---|
| RoadGraphs.RoadGraph.Register | app/routing/graph.py:118-121 | a node registered twice is stored once: in the adjacency and in exactly its own cell's bucket |
| RoadGraphs.RoadGraph.AddSegment | app/routing/graph.py:109-123 | the edge is listed at both ends and nothing else changes; every node stays in exactly one bucket, its own cell's, once |
| RoadGraphs.RoadGraph.ScanRing | app/routing/graph.py:142-150 | one ring reads exactly the cells at that Chebyshev distance, each once: the best node so far is then the closest of the larger square, and the flag says whether the ring improved it |
| Geometry.CellExactly | app/routing/graph.py:65-71 | a place lies in a cell exactly when the cell holds its latitude and its longitude: five thousandths of a degree, counted towards zero, so that the cells at zero hold both sides |
| RoadGraphs.RingsExactly | app/routing/graph.py:138 | the last ring is the one after the limit at 550 m a ring, and at least the first |
| RoadGraphs.RoadGraph.NearestNode | app/routing/graph.py:125-153 | the node returned is strictly under the limit and at least as close as every node of the square of cells at which the search stops, whose cells have each been read exactly once; none is returned exactly when that square holds no node under the limit |
| RoadGraphs.SnapDetermined | app/routing/graph.py:125-153 | whether a node is found, and how far away it is, does not depend on the order of buckets or nodes |
| RoadGraphs.SnapIsNearest | app/routing/graph.py:136-152 | an answer that lies within the distance the rings searched are known to cover, going by how wide cells are around this query and these nodes, is the nearest node of the whole graph |
| RoadGraphs.SnapMayMissNearest | app/routing/graph.py:136-152 | two places in the region and a query near them: under every distance that orders them as they lie on the ground the search must return the farther one |
| RoadGraphs.SnapRightExactly | app/routing/graph.py:128-153 | one search is right if and only if no node is under the limit, or a nearest node lies within the last ring and no ring before its own brings the search to a stop |
| Junctions.NoLasso | app/routing/graph.py:223-229 | a ring walk that meets itself does so at its first node |
| Junctions.NowhereOnward | app/routing/graph.py:226-228 | the ring walk breaks off only inside a component of two nodes joined by exactly two coincident edges |
| Junctions.FollowRing | app/routing/graph.py:222-231 | the walk ends, and everything on it can be reached from a junction (counting the start when it came back to it) or is such a two-node component |
| Junctions.FindJunctions | app/routing/graph.py:214-232 | for every order of nodes: all nodes of degree other than 2 are junctions, a node of degree 2 only on a component that is one ring and only one of each, none of a two-node component, and every other node is reachable from a junction |
| Contraction.WalkChain | app/routing/graph.py:240-273 | one chain from one junction ends, leaves its edges marked walked in both directions, and keeps the invariant between chains: positions of removed nodes, length sums, segments that stand for chains cut in time |
| Contraction.Expand | app/routing/graph.py:256-273 | every walk of the contracted graph expands to a walk of the original of the same length |
| Contraction.Shadow | app/routing/graph.py:256-273 | every original walk to a kept node is followed in the contracted graph from either end of the segment its start lies on, at no more than its length plus the way to that end |
| Contraction.Coverage | app/routing/graph.py:251-273 | a node with an edge is kept or lies less than the spacing from a kept node by road, unless it belongs to a two-node component joined twice; and only those are lost |
| Contraction.WalkedIsRoads | app/routing/graph.py:237-272 | the directed edges walked are exactly all of those outside two-node components: none is skipped |
| Contraction.Contract | app/routing/graph.py:207-282 | for every iteration order the result is a contraction: same shortest distances between kept nodes; every segment an original chain of its length, never turning back, past removed nodes only, and without its last edge shorter than the spacing; every removed node on such a chain; no node kept but junctions, ring starts, cuts and spurs; lengths conserved |
| Contraction.SimpleConserved | app/routing/graph.py:207-282 | without parallel edges the contracted lengths sum to the original sum and every component keeps a node within the spacing of each of its nodes |
| Sums.TotalIsPairs | app/routing/graph.py:237-273 | on a simple graph the listed lengths sum to those of the neighbouring pairs, each direction once |
| Loading.WithSegmentWellFormed | app/routing/graph.py:345-356 | adding a measured segment between two different nodes keeps the graph undirected, free of self-loops and with equally long parallel edges |
| Loading.AddFeature | app/routing/graph.py:343-356 | the loop over the points adds the specified edges, repeated points notwithstanding |
| Loading.FeatureCounts | app/routing/graph.py:343-356 | one feature adds an edge each way for each time two different points follow each other on it |
| Loading.RoadsAreCounted | app/routing/graph.py:324-357 | two nodes have exactly as many edges as there are times some usable line feature has them next to each other |
| Loading.RoadsJoin | app/routing/graph.py:324-357 | two nodes are joined exactly when some usable line feature has them next to each other |
| Loading.RoadsAreDrawn | app/routing/graph.py:324-356 | an edge is in the loaded roads exactly when some passable line has its ends next to each other, and it carries that way's id and tags and the distance of its ends |
| Loading.WaysAreCounted | app/routing/graph.py:328-357 | the ways counted are the passable lines of two points or more |
| Loading.RoadsAreWellFormed | app/routing/graph.py:324-357 | the loaded roads are undirected, free of self-loops, and every edge is as long as the distance of its ends |
| Loading.BuildRoads | app/routing/graph.py:324-357 | the loop builds exactly the specified roads and counts the ways used |
| Loading.LoadRoadGraph | app/routing/graph.py:307-369 | the loaded graph is the contraction of exactly those roads, with their number of ways |
| ShapePoints.WayOut | app/routing/graph.py:251-273 | whoever walks from a node of a merged chain to a kept node walks at least as far as to the nearer end of the chain |
| ShapePoints.SnapError | app/routing/graph.py:251-273 | a removed node lies on a merged chain; the nearest kept node is the nearer end of it, at no more than half the chain, so less than half of the spacing plus the chain's last edge |
| ShapePoints.HalfSpacingExactly | app/routing/graph.py:41-45 | every node is within half the spacing of a kept one if and only if no merged chain has an inner node more than half the spacing from both ends |
| ShapePoints.HalfSpacingFails | app/routing/graph.py:41-45 | a loadable way of two stretches of 100 m: its middle is removed in every contraction and lies more than half the spacing from every kept node |
| ShapePoints.TwinsAreLost | app/routing/graph.py:214-232 | a loadable way there and back between two places: every contraction of it is empty |
| Hazard.CellHoldsPoint | app/routing/hazard.py:38-48 | a point of the box falls into a cell whose rectangle holds it: rows from the north, columns from the west, also on the far borders |
| Hazard.ValueOfCell | app/routing/hazard.py:38-48 | the value at a point is the entry, row by row, of the cell whose rectangle of latitudes and longitudes holds it; there is none exactly outside the box |
| Hazard.SliceTakesChannel | app/routing/hazard.py:164-192 | from interleaved channels exactly the chosen channel's value of each cell is taken |
| Hazard.SliceExactly | app/routing/hazard.py:164-192 | a slice is made exactly when the number of values fits the grid, and with channels the channel exists; otherwise the error says so |
| Hazard.SortSorts | app/routing/hazard.py:76-78 | the slices are put in order of horizon and none is lost |
| Hazard.HazardField.constructor | app/routing/hazard.py:76-78 | the field keeps the slices given, sorted, with their horizons |
| Hazard.ReportIsFirst | app/routing/hazard.py:88-92 | the closure answered is the first of the list whose radius holds the point, border included, and none is answered exactly when no radius does |
| Hazard.HazardField.Risk | app/routing/hazard.py:94-114 | the loop computes the risk function of the slices |
| Hazard.RiskMonotone | app/routing/hazard.py:94-114 | risk never falls with time, whatever was predicted, and is never negative |
| Hazard.RiskIsWorstSoFar | app/routing/hazard.py:94-114 | in whatever order the predictions arrived, the risk is the worst value predicted up to that time, of all after the last, and before the first horizon that of the first prediction, of several for that horizon the one given first |
| Hazard.MultiplierMonotone | app/routing/hazard.py:126-134 | less risk is allowed whenever more is, at no higher factor, and no factor is below one |
| Hazard.PriceOfRisk | app/routing/hazard.py:126-134 | the factor is one up to the avoid threshold, there is none exactly from the block threshold on, and in between it rises from one to the penalty in proportion to the risk, over a band of at least a billionth |
| Hazard.MonotoneIffSane | app/routing/hazard.py:117-134 | the factor is monotone for every risk if and only if the penalty is at least one or the avoid threshold is not below the block threshold |
| Routes.EnterMonotone | app/routing/planner.py:126-144 | entering an edge earlier, or a shorter one to the same place, is allowed whenever the later is and takes no longer; it takes at least its driving time |
| Routes.ClosedEdgeExactly | app/routing/planner.py:129-142 | an edge may not be entered exactly when its far end lies inside a closure, or the risk there at the unpenalised arrival has reached the block threshold |
| Routes.PriceOfEdge | app/routing/planner.py:135-144 | entering takes the driving time times the factor of that risk, and no more than the driving time up to the avoid threshold |
| Search.PopLeast | app/routing/planner.py:106 | the least entry by time, latitude, longitude leaves the queue |
| Search.Improve | app/routing/planner.py:144-148 | lowering a label keeps labels true (each is the arrival of an admissible path), the predecessor tree, and the queue's invariant |
| Search.Settle | app/routing/planner.py:106-109 | a popped entry that is not stale settles its node, once and for good |
| Search.Frontier | app/routing/planner.py:105-148 | an admissible path either runs inside the settled nodes, each labelled no later than the path is there, or is not earlier than everything still queued |
| Expansion.Price | app/routing/planner.py:129-144 | report, risk at the unpenalised arrival, factor and candidate time, in that order |
| Expansion.Expand | app/routing/planner.py:126-148 | after the loop over the neighbours every edge out of the node is relaxed; the edges left out for their risk are counted one by one, and each closure met is listed once |
| Planner.GoalPopped | app/routing/planner.py:110-122 | when the goal is popped its label is the earliest arrival of any admissible path |
| Planner.QueueEmpty | app/routing/planner.py:150-169 | when the queue runs out the settled nodes are exactly those some admissible path reaches, each labelled with its earliest arrival, the goal is not among them, and a closure was counted exactly when some edge is closed when its settled end is reached |
| Planner.CountsAtGoal | app/routing/planner.py:106-142 | the counters of a route found are those of the nodes reached before the goal, each once and at its earliest arrival: edges left out for their risk, closures run into, nodes looked at |
| Planner.FindRoute | app/routing/planner.py:97-169 | the loop ends; it finds a route of least arrival if any admissible path exists, else says why not |
| Planner.Plan | app/routing/planner.py:76-169 | the early answers about the start come first, in order, then the search: the outcome is the one specified |
| Planner.PlanRoute | app/routing/planner.py:40-169 | both ends are snapped, missing roads are told apart by end, and between the snapped ends the outcome is the one specified |
| Reporting.WalkBack | app/routing/planner.py:184-187 | following predecessors from the goal ends at the start and yields the nodes of the labelled path |
| Reporting.Straighten | app/routing/planner.py:195-199 | a path with the same nodes attains the label using the shortest of the parallel edges at every step |
| Reporting.LargestAndMean | app/routing/planner.py:209-210 | the largest of the risks and their mean |
| Reporting.BuildResult | app/routing/planner.py:172-214 | coordinates, distance and risks are those of the labelled path, longitude first, measured along the shortest parallel edges from elapsed zero |
| RouteLaws.OutcomeDetermined | app/routing/planner.py:40-169 | found or not, the reason and the duration are the same for every order of edges and every tie |
| RouteLaws.NoRouteDetermined | app/routing/planner.py:150-169 | an answer without a route is determined altogether, counters included, but for the order in which closures are listed |
| RouteLaws.AnyPathIsMatched | app/routing/planner.py:97-148 | if any admissible path leads to the goal, a route is found, and is no slower than that path |
| RouteLaws.LeavingEarlierIsNoWorse | app/routing/planner.py:135-148 | a route found when leaving later is found when leaving earlier, with no longer duration |
| RouteLaws.FasterModeIsNoWorse | app/routing/planner.py:135-148 | on the same graph a faster mode finds a route whenever a slower one does, with no longer duration |
| RouteLaws.FewerReportsIsNoWorse | app/routing/planner.py:129-133 | taking closures away loses no route and lengthens none |
| RouteLaws.RouteAvoidsReports | app/routing/planner.py:76-82 | no node of a found route, start included, lies inside a reported closure |
| RouteLaws.ReportIsBounded | app/routing/planner.py:184-202 | leaving at zero or later, the reported largest risk is strictly below the block threshold and the duration is at least distance over speed |
| RouteMeasures.DistanceIsLength | app/routing/planner.py:191-201 | the distance reported is the length of the path driven, and the report's clock runs it at the mode's speed or at the floor |
| RouteMeasures.ReportMeasures | app/routing/planner.py:203-214 | the coordinates lead from start to goal, one more than edges, and the mean risk lies between zero and the largest |
| ReportedRisks.NeverOverstated | app/routing/planner.py:189-202 | leaving at zero or later, the risk reported for a node is at most the risk there when the search passes it |
| ReportedRisks.ReportNeverOverstates | app/routing/planner.py:189-209 | of every route found, the largest risk reported is met, or exceeded, somewhere on it |
| ReportedRisks.ClocksAgreeExactly | app/routing/planner.py:189-202 | the report reads every risk at the time of passing if and only if the route leaves at zero and every edge with a length is entered without penalty at no less than the speed floor |
| ReportedRisks.ReportUnderstates | app/routing/planner.py:189-202 | a query for which every answer reports no risk at all though the risk is 0.1 at both ends when they are passed |
| ReportedRisks.SuchAQuery | app/routing/planner.py:189-202 | that query arises on the loaded graph of a single way |
| Connectivity.NotConnectedExactly | app/routing/planner.py:123-169 | after the answer "not connected" the roads do lead to the goal if and only if the time budget ran out at some reached node from which they go on to it |
| Connectivity.BudgetReadsAsDisconnected | app/routing/planner.py:123-169 | on the loaded graph of a single way of 400 m, connected from end to end, and with a budget of 100 s at a metre a second the answer must be "not connected" |
| ContractedRoutes.ContractionUsable | app/routing/graph.py:256-273 | a contracted graph has what the planner asks of a graph |
| ContractedRoutes.ContractedRouteIsShortest | app/routing/graph.py:207-213 | without hazards, a route between kept nodes of the contracted graph is found whenever the full graph has a walk within the budget, and is as long as the shortest walk of the full graph |
| ContractedRoutes.LoadAndPlan | app/routing/graph.py:307-369 | loading and planning compose: the answer is the specified one on the contraction of exactly the usable roads |
| Profiles.StricterUsesLess | app/routing/profiles.py:98-138 | a profile that asks at least as much admits no road the other refuses, whatever the tags |
| Profiles.FewerTagsStayOpen | app/routing/profiles.py:98-138 | taking tags other than the grade off a road never closes it |
| Profiles.AssistedIsStricter | app/routing/profiles.py:138-160 | the assisted mode asks at least as much as walking, and is slower |
| Profiles.MayUseExactly | app/routing/profiles.py:98-135 | a road may be used exactly when its grade is among the mode's, no tag asked or extra blocks, no tag asked or of its dimensions is conditional, its smoothness is passable, its surface is reliable where that is asked, and where fords are not it is none; in whatever order this is checked |
| Profiles.NeverSent | app/routing/profiles.py:98-175 | whatever the mode, nobody is sent onto a road closed to all or of impassable smoothness, through a ford, or past a conditional restriction of access or dimensions |
| Profiles.NeverSentOnFoot | app/routing/profiles.py:98-175 | nobody on foot is sent onto motorways or trunk roads or where people on foot are barred, no wheelchair over steps, paths, tracks or unreliable surfaces |
| Profiles.NeverSentByBicycle | app/routing/profiles.py:98-175 | no bicycle is sent onto motorways, trunk roads, steps or corridors, or where bicycles are barred |
| Profiles.NeverSentByCar | app/routing/profiles.py:98-175 | no car is sent onto steps, corridors, footways, paths, pedestrian ways or cycleways, or where vehicles are barred |
| Profiles.StricterHasFewerRoads | app/routing/graph.py:327-337 | built from the same features, the stricter mode's graph has no road the other lacks |
| Profiles.WalkShared | app/routing/graph.py:327-357 | each walk in the stricter mode's graph is there, as long, in the other's |
| Profiles.LaxerModeIsNoSlower | app/routing/planner.py:97-148 | without hazards and between places both contracted graphs kept: where the stricter and slower mode gets through, so does the other, in no more time, each planned on its own contracted graph |
| WorkflowService.Service.CreatePlan | app/services/planning.py:60-119 | the tables become those of the specified transaction; the new plan's id or the first error found |
| WorkflowService.ErrorBySets | app/services/planning.py:33-57 | the number of different ids and what the sets of ids miss in the tables decide the error: duplicate community, unknown community, unknown shelter, in that order |
| WorkflowService.Service.ValidateItems | app/services/planning.py:32-57 | the check by sets of ids finds the first error of the items, item by item: a community twice, an unknown one, an unknown shelter |
| WorkflowService.Service.Current | app/services/planning.py:138-149 | the query returns the specified plan in force |
| WorkflowService.Service.ApprovePlan | app/services/planning.py:152-185 | the specified transaction; refused for a missing, an approved or a superseded plan |
| WorkflowService.Service.MarkNeedsReapproval | app/services/planning.py:188-213 | the specified transaction; only an approved plan in force changes |
| WorkflowService.Service.StartRound | app/services/contacts.py:21-77 | the specified transaction; refused without a plan and under one that is not approved |
| WorkflowService.Service.UpdateContact | app/services/contacts.py:96-119 | the specified transaction on one attempt |
| WorkflowService.Service.CreateTask | app/services/tasks.py:17-48 | the specified transaction |
| WorkflowService.Service.CreateFromUnreachable | app/services/tasks.py:51-114 | the loop adds the specified tasks, nothing and no log entry if there are none |
| WorkflowService.Service.Changes | app/services/tasks.py:141-149 | the loop over the fields ends with the specified task, and says whether anything changed |
| WorkflowService.Service.UpdateTask | app/services/tasks.py:137-163 | field by field, the specified transaction; nothing is logged if nothing changed |
| WorkflowService.Service.SubmitReport | app/services/tasks.py:166-217 | the specified transaction: report, task, plan and both log entries |
| PlanHistory.CurrentIsLatest | app/services/planning.py:138-149 | the query for the plan in force returns the incident's last plan |
| PlanHistory.SuccessorIsNextVersion | app/services/planning.py:102-104 | a superseded plan's successor is the same incident's next version |
| PlanHistory.VersionsAreExact | app/services/planning.py:65-71 | an incident's versions are exactly 1 to n, increasing, one plan each |
| PlanHistory.RunKeepsHistory | app/services/planning.py:60-213 | after any sequence of requests: versions exact, every plan but the last of an incident superseded by the next one and only those, an approver named exactly where approval happened, no community twice in a plan |
| PlanHistory.RunExtends | app/services/planning.py:73-104 | over any sequence of requests no plan disappears or is rewritten, a superseded plan never changes again, an approver is never erased, and the log only grows |
| AuditReplay.TakesOverCurrent | app/services/planning.py:65-104 | the plan with the largest version so far is the plan in force, so the log's version number says which plan is superseded |
| AuditReplay.LogRebuildsPlans | app/services/audit.py:18-41 | after any sequence of requests folding the log rebuilds every plan's incident, version, status, approver and successor |
| Requests.CreateEffects | app/services/planning.py:60-119 | a draft is accepted exactly for a known incident and communities that are on record and each named once, with shelters on record; it then stores the items asked for in their order, as a draft of that incident without approver or successor, above all versions so far, and no other plan's items change; refused, nothing changes |
| Requests.CreateHandsOver | app/services/planning.py:73-104 | of the plans there were, exactly the incident's one in force is superseded, by the new one |
| Requests.ApproveEffects | app/services/planning.py:152-185 | an approval is accepted exactly for a draft or a plan sent back, and then names the approver of the request; every refusal has its own reason and changes nothing |
| Requests.MarkEffects | app/services/planning.py:188-213 | an approved plan of the incident, and no other, goes back for approval and keeps the name of its approver |
| Requests.Lifecycle | app/services/planning.py:3-8 | what every request makes of every plan: replaced by the next draft, approved while it waits, sent back by a report of its incident while approved, and otherwise untouched |
| Requests.ApprovalStands | app/services/planning.py:157-164 | as long as a plan stays approved no request changes it, and leaving approval it keeps its approver and its items |
| Requests.TablesTouched | app/services/tasks.py:17-217 | the places on record never change, only a declaration adds an incident, and plans, attempts, tasks and reports are touched only by the requests for them and by reports |
| Requests.EveryChangeIsSigned | app/services/audit.py:18-41 | whatever a request changes it logs, in the name of who sent it, in one row, or two for a report |
| PlanLog.ItemsAsSubmitted | app/services/planning.py:86-118 | in any run every plan holds, in their order, the items of the accepted request whose row in the log names it |
| PlanLog.OneRowPerDraft | app/services/planning.py:110-118 | in no run do two rows announce the same plan |
| PlanLog.ReapprovalBetween | app/services/planning.py:157-164 | in any run, between two approvals of one plan it was sent back for approval |
| PlanLog.ApprovalBetween | app/services/planning.py:196-200 | in any run, between two requests for a new approval of one plan it was approved |
| ContactSafety.MarkAgrees | app/services/planning.py:188-213 | after marking, no plan of the incident is open for contact, in the tables and by the log |
| ContactSafety.RunSafe | app/services/contacts.py:24-31 | after any sequence of requests every contact round in the log was started under the plan then in force and approved, and every report that found a constraint or called for a new approval left none so |
| ContactSafety.NoContactBeforeReapproval | app/services/tasks.py:190-200 | in any run, between a report that found a constraint or called for a new approval and a later contact round of its incident there is an approval |
| ContactRounds.RoundCovers | app/services/contacts.py:33-64 | after a round the plan's communities are exactly those with an attempt under it |
| ContactRounds.RunKeepsRounds | app/services/contacts.py:33-76 | after any sequence of requests every attempt belongs to a plan that was approved and names its community, there is at most one per plan and community, and the log announced each of them |
| Requests.StartEffects | app/services/contacts.py:24-77 | a round under an approved plan adds a row for each of its communities that has none, in the plan's order, with the households on record, the channel and the note, unanswered; nothing else changes but the log |
| Requests.StartRefusedExactly | app/services/contacts.py:24-31 | a round is refused exactly without the incident, without a plan, or without an approved one, and then changes nothing |
| Requests.AnswerEffects | app/services/contacts.py:96-119 | an answer is written into its own row, signed by who recorded it; the confirmed households and the follow-up stay when none are given |
| FieldTasks.EveryoneIsVerified | app/services/tasks.py:51-114 | afterwards somebody is on the way to every community that did not answer; the tasks added are urgent unassigned visits to those where nobody was, tasks already there are kept, and repeating the call adds nothing |
| FieldTasks.DuplicatesExactly | app/services/tasks.py:80-101 | one call sends two teams to one community if and only if two of its attempts went unanswered and no team was on the way |
| FieldTasks.OnePlanOneTeam | app/services/tasks.py:80-101 | while the unanswered attempts belong to one plan no community is sent two |
| FieldTasks.TwoTeamsForOne | app/services/tasks.py:80-101 | a run of nine requests from empty tables after which one call does send two |
| FieldTasks.ReportEffects | app/services/tasks.py:166-217 | an open task goes under review and a closed one does not; the report says a new approval is needed exactly when it asked for one or found a constraint and the plan in force now needs it; the plan in force stays the same, and so do all other tasks, reports and attempts |
| FieldTasks.CreateTaskEffects | app/services/tasks.py:17-48 | one task is appended, assigned exactly when somebody is named and otherwise unassigned and open, so that a visit asked for counts as under way; nothing else changes but the log |
| FieldTasks.UpdateEffects | app/services/tasks.py:141-149 | what a request gives is set and what it leaves out is kept, but that an assignee takes a task out of the pool unless the same request sets its status; repeating the request changes nothing |
| FieldTasks.UpdateTouchesOne | app/services/tasks.py:137-163 | only the task asked for changes, and a row is logged exactly when it does |
| FieldTasks.RollUp | app/services/contacts.py:122-139 | every attempt is counted under exactly one answer and the unreachable ones are those to verify; households are summed |
| FieldTasks.CountsOfParts | app/services/contacts.py:122-139 | the counts and sums of a list are those of its parts, and of one attempt its own |
| FieldTasks.AnswerMovesOneCount | app/services/contacts.py:96-107 | recording an answer moves one attempt between the summary's counts and changes the confirmed households by the difference, nothing else |
| Events.OfferedIsTail | app/services/events.py:62-70 | whatever is published, a queue keeps the newest events, at most its size, in order |
| Events.EventBroker.Publish | app/services/events.py:62-70 | every subscriber is offered the event; a full queue loses its oldest |
| Events.EventBroker.Subscribe | app/services/events.py:72-77 | a new, empty queue joins the subscribers |
| Events.EventBroker.Unsubscribe | app/services/events.py:78-79 | the queue leaves the subscribers, the others stay |
| Events.Session.PublishAfterCommit | app/services/events.py:112-115 | the event waits at the end of the session's list |
| Events.Session.Announce | app/services/events.py:121-126 | a failing hook stops neither the queues nor the other hooks |
| Events.Session.AfterCommit | app/services/events.py:118-126 | the list is emptied and offered in order to every queue and every hook, once |
| Events.Session.AfterRollback | app/services/events.py:129-131 | the list is dropped |
| Events.Stream | app/services/events.py:92-94 | a stream for one incident passes exactly its own events and those of none, in order |
| Events.PassesExactly | app/services/events.py:92-93 | an event of no incident always passes, a stream for no incident passes all, and one for an incident passes of the others' only its own |
| Events.SentInOrder | app/services/events.py:92-94 | what passes is sent in the order taken, each event once |
| Broadcast.ReceiveOk | app/services/events.py:62-70 | publishing keeps a subscriber's queue the newest part of what was published since it joined, and the event just published is in it, last |
| Broadcast.RunKeeps | app/services/events.py:112-131 | in every interleaving of sessions, commits, rollbacks, subscribers and consumers: queues as above, each consumer's events in publishing order, an outbox holding exactly its session's waiting events in order, and a session's events published in the order handed in |
| Broadcast.StepPublishes | app/services/events.py:118-131 | a commit publishes exactly its own session's outbox, in order, a rollback nothing, and every queue then holds the newest of what it had and what came |
| Broadcast.PublishedOnce | app/services/events.py:118-121 | in no run is an event handed in published twice |
| Broadcast.FatesStand | app/services/events.py:129-131 | in no run is an event rolled back published later, or one published withdrawn |
| Broadcast.EventFate | app/services/events.py:112-131 | in any run an event handed in waits while its session is open, is published for good by the session's next commit, and is never published if a rollback comes first |
| Broadcast.NothingLost | app/services/events.py:72-79 | a consumer whose queue never overflowed has received every event since it joined, in order |
| Broadcast.ConsumeMoves | app/services/events.py:86-94 | consuming moves the oldest event of one queue to what its consumer received and changes no other |
| Broadcast.HearsSince | app/services/events.py:72-79 | in any run a subscriber that has not left hears from the moment it joined on, and of nothing before |
| Cache.TTLCache.Get | app/core/cache.py:32-39 | an unexpired value or none; an expired entry found is dropped |
| Cache.TTLCache.Set | app/core/cache.py:41-51 | in a full store the expired go first and then, if still full, one entry of those first to expire; the entry is stored and the limit kept |
| Cache.TTLCache.DropExpired | app/core/cache.py:43-46 | exactly the expired entries go |
| Cache.TTLCache.Oldest | app/core/cache.py:48 | an entry of those first to expire |
| Cache.TTLCache.Invalidate | app/core/cache.py:53-54 | exactly that key goes |
| Cache.StoredWithin | app/core/cache.py:41-51 | storing never lets the store outgrow its limit |
| Cache.StoredDropsOldest | app/core/cache.py:42-49 | storing drops an unexpired entry only from a store full of unexpired ones, just one, and none that stays expires before it |
| Cache.StoredExactly | app/core/cache.py:41-51 | which entries are there after storing: the one stored; with room all the others; without room the unexpired ones, less one if they fill the store |
| SingleFlight.RunKeeps | app/core/cache.py:59-83 | in every interleaving: the store is within its limit, every entry was produced for its key, whoever runs a factory holds its key's lock, and every lock held is held by a task at work |
| SingleFlight.OneFactoryPerKey | app/core/cache.py:74-81 | in no reachable state do two tasks run a factory for the same key |
| SingleFlight.StoreIsBounded | app/core/cache.py:41-51 | in no reachable state does the store exceed its limit |
| SingleFlight.WaitersAreServed | app/core/cache.py:77-83 | what a waiting task waits for is free, or held by a task that can go on with the same key |
| SingleFlight.OnlySuccessIsCached | app/core/cache.py:65-69 | every entry in the store is there because its key's factory succeeded: failures, cancellations and hits store nothing |
| SingleFlight.ReturnedIsFresh | app/core/cache.py:70-83 | every value returned came from a factory for its key: the task's own, or one that had succeeded before and whose value had not expired when it was read |
| SingleFlight.WhatDisplaces | app/core/cache.py:41-57 | an unexpired entry goes only by invalidation, by its own key's factory, or as the first to expire of a store full of unexpired entries |
| SingleFlight.HitAtOnce | app/core/cache.py:70-72 | a call returns at once exactly when the store holds an unexpired value, that value, and changes nothing then |
| SingleFlight.InvalidatedIsGone | app/core/cache.py:53-57 | in any run, after a key is invalidated or the cache cleared every value answered for it was produced later |
| SingleFlight.NoSecondFlight | app/core/cache.py:65-83 | after a factory produced a value no factory for that key starts before the value expires, unless its entry was displaced |

## Left out

- Planner.PlanRoute: requires a policy under which more risk is never cheaper (`Hazard.Sane`, exactly the monotone ones by `Hazard.MonotoneIffSane`); with any other the source runs but its search has no claim to be optimal. The service only builds policies that meet it.
- ContractedRoutes.ContractedRouteIsShortest: compares the contracted with the full graph only without hazards, because risk is checked at the nodes left and so depends on which shape points were removed.
- Profiles.LaxerModeIsNoSlower: without hazards and between places both graphs kept, for the same reason and because each mode snaps to its own nodes.
- Contraction.Contract: requires what loading ensures (no self-loops, parallel edges of equal length); on other graphs the source runs and the distances are not claimed. Nodes without edges do not arise from loading. Which way's id and tags a contracted segment carries is not stated: nothing that plans on the graph reads them.
- WorkflowService.Service.StartRound: channel and note are kept; attempt times and the data mode of a community are not.
- Cache.TTLCache.Set: requires a limit of at least one; with zero the source raises an error on the first call.
- Broadcast.RunKeeps: a commit hands over its whole outbox in one step, as the hook does without awaiting.
- SingleFlight.RunKeeps: the guard around the lock table is not a step of its own, because nothing is awaited under it; locks may be handed over in any order.
- Rounding of reported distances, durations and risks, floating-point error, and the haversine formula itself.
- Texts of reasons, summaries and warnings; only their kind and the values they rest on are kept.
- Reading files, GeoJSON parsing, rounding of coordinates to node ids, the graph cache on disk.
- The sigmoid that turns logits into probabilities, and the bounding boxes of predictions.
- HTTP, authentication, schemas and the database: a transaction is one atomic step, and races that the database's isolation and unique constraints exclude do not occur.
- Descriptive fields of plans, plan items, attempts, tasks and reports, and all timestamps but due dates.
- Choosing and ordering shelters in the routing service, and its ranking of recommended legs.
- Encoding of the event stream, its opening event and heartbeats; Web Push delivery behind the hooks.
- The assistant, the upstream clients, drills, weather and situation summaries.
