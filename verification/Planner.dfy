/** The route planner: snapping, the early answers, and the search. */
module Planner {
  import opened FiniteSets
  import opened Options
  import opened Geometry
  import opened Walks
  import opened RoadGraphs
  import opened Hazard
  import opened Routes
  import opened Search
  import opened Expansion
  import opened Reporting

  /** The search's whole invariant. */
  ghost predicate Searching(q: Query, best: Labels, previous: Parents, queue: multiset<Entry>, settled: set<NodeId>, paths: Paths, avoided: nat, hits: seq<BlockedPoint>, explored: nat)
    requires q.speed > 0.0 && AllValid(q.slices)
  {
    && State(q, best, previous, queue, settled, paths)
    && Relaxed(q, best, settled)
    && CountersOk(q, best, settled, avoided, hits) && Counted(q, Only(best, settled), avoided, hits)
    && q.goal !in settled && explored == |settled|
  }

  lemma Begin(q: Query)
    requires Valid(q)
    ensures Searching(q, map[q.start := q.depart], map[], multiset{Entry(q.depart, q.start)}, {}, map[q.start := []], 0, [], 0)
  {
    assert PathTo(q, [], q.start, q.depart);
    var none := Only(map[q.start := q.depart], {});
    assert none == map[] && LeftOut(q, none) == {};
  }

  /** What the invariant says, part by part. */
  lemma Parts(q: Query, best: Labels, previous: Parents, queue: multiset<Entry>, settled: set<NodeId>, paths: Paths, avoided: nat, hits: seq<BlockedPoint>, explored: nat)
    requires q.speed > 0.0 && AllValid(q.slices) && Searching(q, best, previous, queue, settled, paths, avoided, hits, explored)
    ensures State(q, best, previous, queue, settled, paths) && Relaxed(q, best, settled) && settled <= best.Keys <= q.g.Keys
    ensures CountersOk(q, best, settled, avoided, hits) && Counted(q, Only(best, settled), avoided, hits) && HitsOk(q, hits)
    ensures q.goal !in settled && explored == |settled|
  {
    hide Tree, Queued, HitsOk, Counted, ClosedFrom, EdgeRelaxed, PathTo, AllValid;
  }

  lemma SkipStale(q: Query, best: Labels, previous: Parents, queue: multiset<Entry>, settled: set<NodeId>, paths: Paths, avoided: nat, hits: seq<BlockedPoint>, explored: nat, least: Entry)
    requires Valid(q) && Searching(q, best, previous, queue, settled, paths, avoided, hits, explored)
    requires IsLeast(least, queue)
    ensures least in queue && least.node in best
    ensures best[least.node] < least.at ==> Searching(q, best, previous, queue - multiset{least}, settled, paths, avoided, hits, explored)
  {
    assert least.node in best;
    if best[least.node] < least.at {
      DropStale(best, queue, settled, least);
    }
  }

  /** A node over the time budget is settled without being expanded. */
  lemma OverBudget(q: Query, best: Labels, previous: Parents, queue: multiset<Entry>, settled: set<NodeId>, paths: Paths, avoided: nat, hits: seq<BlockedPoint>, node: NodeId, arrival: real)
    requires Valid(q) && Relaxed(q, best, settled) && CountersOk(q, best, settled, avoided, hits) && Counted(q, Only(best, settled), avoided, hits)
    requires q.goal !in settled && node != q.goal && node !in settled && arrival - q.depart > q.maxDuration
    requires Trying(q, best, best, previous, queue, settled + {node}, paths, node, arrival, [])
    ensures Searching(q, best, previous, queue, settled + {node}, paths, avoided, hits, |settled| + 1)
  {
    assert q.speed > 0.0 && AllValid(q.slices);
    hide *;
    Settling(q, best, previous, queue, settled, paths, node, arrival);
    LateCounted(q, best, settled, node, avoided, hits);
    LateRelaxed(q, best, settled, node, avoided, hits);
    Whole(q, best, previous, queue, settled + {node}, paths, avoided, hits, |settled| + 1);
  }

  lemma Settling(q: Query, best: Labels, previous: Parents, queue: multiset<Entry>, settled: set<NodeId>, paths: Paths, node: NodeId, arrival: real)
    requires q.speed > 0.0 && AllValid(q.slices)
    requires Trying(q, best, best, previous, queue, settled + {node}, paths, node, arrival, [])
    ensures State(q, best, previous, queue, settled + {node}, paths) && node in best && best[node] == arrival
  {
    hide State, JustSettled, Lowered, AllValid;
  }

  lemma Whole(q: Query, best: Labels, previous: Parents, queue: multiset<Entry>, settled: set<NodeId>, paths: Paths, avoided: nat, hits: seq<BlockedPoint>, explored: nat)
    requires q.speed > 0.0 && AllValid(q.slices) && State(q, best, previous, queue, settled, paths) && Relaxed(q, best, settled)
    requires CountersOk(q, best, settled, avoided, hits) && Counted(q, Only(best, settled), avoided, hits)
    requires q.goal !in settled && explored == |settled|
    ensures Searching(q, best, previous, queue, settled, paths, avoided, hits, explored)
  {
  }

  lemma LateRelaxed(q: Query, best: Labels, settled: set<NodeId>, node: NodeId, avoided: nat, hits: seq<BlockedPoint>)
    requires q.speed > 0.0 && AllValid(q.slices) && node in best && best[node] - q.depart > q.maxDuration
    requires Relaxed(q, best, settled) && CountersOk(q, best, settled, avoided, hits)
    ensures Relaxed(q, best, settled + {node}) && CountersOk(q, best, settled + {node}, avoided, hits)
  {
    hide Enter, HitsOk, AllValid;
    forall u, e | u in settled + {node}
      ensures ClosedFrom(q, best, u, e) ==> u in settled
    {
    }
  }

  lemma LateCounted(q: Query, best: Labels, settled: set<NodeId>, node: NodeId, avoided: nat, hits: seq<BlockedPoint>)
    requires q.speed > 0.0 && AllValid(q.slices) && node in best && node !in settled && best[node] - q.depart > q.maxDuration
    requires Counted(q, Only(best, settled), avoided, hits)
    ensures Counted(q, Only(best, settled + {node}), avoided, hits)
  {
    hide Counted, AllValid;
    CountedLate(q, Only(best, settled), node, best[node], avoided, hits);
    assert Only(best, settled + {node}) == Only(best, settled)[node := best[node]];
  }

  lemma StartExpanding(q: Query, best: Labels, previous: Parents, queue: multiset<Entry>, settled: set<NodeId>, paths: Paths, least: Entry)
    requires Valid(q) && State(q, best, previous, queue, settled, paths)
    requires IsLeast(least, queue) && least.node in best && least.at <= best[least.node]
    ensures least.node !in settled && least.node in q.g
    ensures Trying(q, best, best, previous, queue - multiset{least}, settled + {least.node}, paths, least.node, least.at, [])
  {
    Settle(q, best, previous, queue, settled, paths, least);
  }

  lemma Expanded(q: Query, best0: Labels, best: Labels, previous: Parents, queue: multiset<Entry>, settled: set<NodeId>, paths: Paths, avoided0: nat, hits0: seq<BlockedPoint>, avoided: nat, hits: seq<BlockedPoint>, node: NodeId, arrival: real)
    requires Valid(q) && Relaxed(q, best0, settled) && CountersOk(q, best0, settled, avoided0, hits0)
    requires Counted(q, Only(best0, settled), avoided0, hits0)
    requires CountedFrom(q, node, arrival, |Neighbours(q.g, node)|, avoided0, hits0, avoided, hits)
    requires q.goal !in settled && node != q.goal && node !in settled && arrival - q.depart <= q.maxDuration
    requires Trying(q, best0, best, previous, queue, settled + {node}, paths, node, arrival, Neighbours(q.g, node))
    requires HitsOk(q, hits)
    requires avoided > 0 || hits != [] <==> avoided0 > 0 || hits0 != [] || ClosedAmong(q, Neighbours(q.g, node), arrival)
    ensures Searching(q, best, previous, queue, settled + {node}, paths, avoided, hits, |settled| + 1)
  {
    assert q.speed > 0.0 && AllValid(q.slices);
    hide *;
    Tried(q, best0, best, previous, queue, settled, paths, node, arrival);
    StillRelaxed(q, best0, best, settled + {node}, settled);
    CountersGrow(q, best0, best, settled, node, avoided0, hits0, avoided, hits);
    MoreCounted(q, best0, best, settled, node, arrival, avoided0, hits0, avoided, hits);
    AllRelaxed(q, best, settled, node);
    Whole(q, best, previous, queue, settled + {node}, paths, avoided, hits, |settled| + 1);
  }

  /** What is known once every edge out of a node has been tried. */
  lemma Tried(q: Query, best0: Labels, best: Labels, previous: Parents, queue: multiset<Entry>, settled: set<NodeId>, paths: Paths, node: NodeId, arrival: real)
    requires q.speed > 0.0 && AllValid(q.slices)
    requires Trying(q, best0, best, previous, queue, settled + {node}, paths, node, arrival, Neighbours(q.g, node))
    ensures State(q, best, previous, queue, settled + {node}, paths) && Lowered(best0, best, settled + {node})
    ensures settled <= best.Keys && settled <= best0.Keys && node in best0 && node in best && best0[node] == best[node] == arrival
    ensures forall e :: e in Neighbours(q.g, node) ==> EdgeRelaxed(q, best, node, e)
  {
    assert node in settled + {node};
    hide State, JustSettled, EdgeRelaxed, AllValid;
  }

  lemma AllRelaxed(q: Query, best: Labels, settled: set<NodeId>, node: NodeId)
    requires q.speed > 0.0 && AllValid(q.slices) && node in best && Relaxed(q, best, settled)
    requires forall e :: e in Neighbours(q.g, node) ==> EdgeRelaxed(q, best, node, e)
    ensures Relaxed(q, best, settled + {node})
  {
    hide EdgeRelaxed, AllValid;
  }

  lemma MoreCounted(q: Query, best0: Labels, best: Labels, settled: set<NodeId>, node: NodeId, arrival: real, avoided0: nat, hits0: seq<BlockedPoint>, avoided: nat, hits: seq<BlockedPoint>)
    requires q.speed > 0.0 && AllValid(q.slices) && node !in settled && arrival - q.depart <= q.maxDuration
    requires Lowered(best0, best, settled + {node}) && node in best && best[node] == arrival && settled <= best.Keys
    requires Counted(q, Only(best0, settled), avoided0, hits0)
    requires CountedFrom(q, node, arrival, |Neighbours(q.g, node)|, avoided0, hits0, avoided, hits)
    ensures Counted(q, Only(best, settled + {node}), avoided, hits)
  {
    hide Counted, CountedFrom, AllValid;
    CountedMore(q, Only(best0, settled), node, arrival, avoided0, hits0, avoided, hits);
    assert Only(best, settled + {node}) == Only(best0, settled)[node := arrival];
  }

  /** At the pop of the goal: its label is the earliest arrival of any admissible path. */
  lemma GoalPopped(q: Query, best: Labels, previous: Parents, queue: multiset<Entry>, settled: set<NodeId>, paths: Paths, avoided: nat, hits: seq<BlockedPoint>, explored: nat, least: Entry)
    requires Valid(q) && Searching(q, best, previous, queue, settled, paths, avoided, hits, explored)
    requires IsLeast(least, queue) && least.node == q.goal && q.goal in best && least.at <= best[q.goal]
    ensures least.at == best[q.goal]
    ensures forall o :: Admissible(q, o) && End(q, o) == q.goal ==> least.at <= Arrival(q, o)
  {
    forall v | v in best && v !in settled
      ensures Beyond(Some(least.at), best[v])
    {
      assert queue[Entry(best[v], v)] == if v in settled then 0 else 1;
      assert LessOrEqual(least, Entry(best[v], v));
    }
    forall o | Admissible(q, o) && End(q, o) == q.goal
      ensures least.at <= Arrival(q, o)
    {
      Frontier(q, best, queue, settled, Some(least.at), o);
    }
  }

  /** With nothing queued every label is settled, and is its node's earliest arrival. */
  lemma AllSettled(q: Query, best: Labels, settled: set<NodeId>)
    requires Valid(q) && Queued(best, multiset{}, settled) && Relaxed(q, best, settled)
    requires q.start in best && best[q.start] <= q.depart
    ensures best.Keys == settled
    ensures forall p :: Admissible(q, p) ==> End(q, p) in settled && best[End(q, p)] <= Arrival(q, p)
  {
    forall v | v in best
      ensures v in settled
    {
      assert multiset{}[Entry(best[v], v)] == if v in settled then 0 else 1;
    }
    forall p | Admissible(q, p)
      ensures End(q, p) in settled && best[End(q, p)] <= Arrival(q, p)
    {
      Frontier(q, best, multiset{}, settled, None, p);
    }
  }

  lemma SettledAreReached(q: Query, best: Labels, settled: set<NodeId>, paths: Paths)
    requires Valid(q) && Labelled(q, best, paths) && best.Keys == settled
    requires forall p :: Admissible(q, p) ==> End(q, p) in settled && best[End(q, p)] <= Arrival(q, p)
    ensures ReachedNodes(q) == settled
    ensures forall v :: v in settled ==> EarliestAt(q, v, best[v])
  {
    forall v | v in settled
      ensures EarliestAt(q, v, best[v]) && Reached(q, v)
    {
      assert PathTo(q, paths[v], v, best[v]);
    }
  }

  /** When the queue has run out, the settled nodes are exactly those reached,
      each with its earliest arrival; the goal is not among them. */
  lemma QueueEmpty(q: Query, best: Labels, previous: Parents, settled: set<NodeId>, paths: Paths, avoided: nat, hits: seq<BlockedPoint>, explored: nat)
    requires Valid(q) && Searching(q, best, previous, multiset{}, settled, paths, avoided, hits, explored)
    ensures !Reached(q, q.goal)
    ensures ReachedNodes(q) == settled && settled <= best.Keys
    ensures avoided > 0 || hits != [] <==> Obstructed(q)
    ensures forall v :: v in settled ==> EarliestAt(q, v, best[v])
    ensures forall v :: Reached(q, v) ==> exists t :: EarliestAt(q, v, t)
  {
    assert Queued(best, multiset{}, settled) && Labelled(q, best, paths) && q.start in best && best[q.start] <= q.depart;
    hide Queued, Labelled, Tree, Relaxed, ClosedFrom, Obstructed, EarliestAt, AllValid, Sane, Counted;
    AllSettled(q, best, settled);
    SettledAreReached(q, best, settled, paths);
    ObstructedIffMet(q, best, settled);
  }

  lemma ObstructedIffMet(q: Query, best: Labels, settled: set<NodeId>)
    requires Valid(q) && settled <= best.Keys
    requires forall v :: v in settled ==> EarliestAt(q, v, best[v])
    requires forall p :: Admissible(q, p) ==> End(q, p) in settled
    ensures Obstructed(q) <==> exists u, e :: u in settled && ClosedFrom(q, best, u, e)
  {
    if u, e :| u in settled && ClosedFrom(q, best, u, e) {
      assert ClosedEdge(q, u, best[u], e);
    }
    if v, t, e :| ClosedEdge(q, v, t, e) {
      var p :| PathTo(q, p, v, t);
      assert v in settled;
      EarliestUnique(q, v, t, best[v]);
      assert ClosedFrom(q, best, v, e);
    }
  }

  /** What the search answers once the start itself is open. */
  ghost predicate SearchOutcome(q: Query, r: RouteResult)
    requires Valid(q)
  {
    && HitsOk(q, r.blockedByReports)
    && (r.found <==> r.reason.None?)
    && (!r.found ==> Blank(r))
    && if Reached(q, q.goal) then
         r.found && r.exploredNodes <= |q.g.Keys| && FoundCounts(q, r) && exists p :: BestRoute(q, r, p)
       else
         && r.reason == Some(if Obstructed(q) then CutOffByHazard else NotConnected)
         && (r.avoidedEdges > 0 || r.blockedByReports != [] <==> Obstructed(q))
         && r.exploredNodes == |ReachedNodes(q)| && FailedCounts(q, r) && r.maxRisk == 0.0
         && forall v :: Reached(q, v) ==> exists t :: EarliestAt(q, v, t)
  }

  /** What the search knows when the goal is popped, as the report needs it. */
  lemma Known(q: Query, best: Labels, previous: Parents, queue: multiset<Entry>, settled: set<NodeId>, paths: Paths, avoided: nat, hits: seq<BlockedPoint>, explored: nat)
    requires Valid(q) && Searching(q, best, previous, queue, settled, paths, avoided, hits, explored) && q.goal in best
    ensures Labelled(q, best, paths) && Tree(q, best, previous, settled, paths) && Relaxed(q, best, settled)
    ensures HitsOk(q, hits) && explored + 1 <= |q.g.Keys|
    ensures Reached(q, q.goal)
  {
    SubsetSize(settled + {q.goal}, q.g.Keys);
    assert PathTo(q, paths[q.goal], q.goal, best[q.goal]);
  }

  /** When the goal is popped, the settled nodes are all those reached before it, each
      with its earliest arrival. */
  lemma SettledBefore(q: Query, best: Labels, previous: Parents, queue: multiset<Entry>, settled: set<NodeId>, paths: Paths, least: Entry)
    requires Valid(q) && State(q, best, previous, queue, settled, paths) && Relaxed(q, best, settled)
    requires IsLeast(least, queue)
    ensures forall v :: v in settled ==> v in best && EarliestAt(q, v, best[v]) && best[v] <= least.at
    ensures forall p :: Admissible(q, p) && Arrival(q, p) < least.at ==> End(q, p) in settled
  {
    assert forall v :: v in best && v !in settled ==> Entry(best[v], v) in queue && LessOrEqual(least, Entry(best[v], v));
    hide AllValid, Closed, NonNegative, Sane, LessOrEqual, EdgeRelaxed, Tree;
    forall p | Admissible(q, p)
      ensures (End(q, p) in settled && best[End(q, p)] <= Arrival(q, p)) || least.at <= Arrival(q, p)
    {
      Frontier(q, best, queue, settled, Some(least.at), p);
    }
    forall v | v in settled
      ensures v in best && EarliestAt(q, v, best[v])
    {
      assert PathTo(q, paths[v], v, best[v]);
    }
  }

  lemma OnlyIs(best: Labels, done: set<NodeId>)
    requires done <= best.Keys
    ensures Only(best, done).Keys == done && |Only(best, done)| == |done|
    ensures forall v :: v in done ==> Only(best, done)[v] == best[v]
  {
  }

  /** The counters of the answer when the goal is popped. */
  lemma CountsAtGoal(q: Query, best: Labels, previous: Parents, queue: multiset<Entry>, settled: set<NodeId>, paths: Paths, avoided: nat, hits: seq<BlockedPoint>, explored: nat, least: Entry, r: RouteResult)
    requires Valid(q) && Searching(q, best, previous, queue, settled, paths, avoided, hits, explored)
    requires IsLeast(least, queue) && r.duration == least.at - q.depart
    requires r.avoidedEdges == avoided && r.blockedByReports == hits && r.exploredNodes == explored + 1
    ensures FoundCounts(q, r)
  {
    assert q.speed > 0.0 && AllValid(q.slices);
    hide *;
    Parts(q, best, previous, queue, settled, paths, avoided, hits, explored);
    SettledBefore(q, best, previous, queue, settled, paths, least);
    OnlyIs(best, settled);
    CountsOf(q, Only(best, settled), r, least.at);
  }

  lemma CountsOf(q: Query, at: Labels, r: RouteResult, arrival: real)
    requires q.speed > 0.0 && AllValid(q.slices) && Counted(q, at, r.avoidedEdges, r.blockedByReports)
    requires q.goal !in at && r.exploredNodes == |at| + 1 && arrival == q.depart + r.duration
    requires forall v :: v in at ==> EarliestAt(q, v, at[v]) && at[v] <= arrival
    requires forall p :: Admissible(q, p) && Arrival(q, p) < arrival ==> End(q, p) in at
    ensures FoundCounts(q, r)
  {
    hide LeftOut, RunsInto, EarliestAt, AllValid, Admissible, Arrival, End;
    assert Accounts(q, r, at) && BeforeGoal(q, r, at);
  }

  /** The counters of the answer when the queue has run out. */
  lemma CountsAtEnd(q: Query, best: Labels, settled: set<NodeId>, avoided: nat, hits: seq<BlockedPoint>, r: RouteResult)
    requires Valid(q) && Counted(q, Only(best, settled), avoided, hits) && settled <= best.Keys
    requires ReachedNodes(q) == settled && forall v :: v in settled ==> EarliestAt(q, v, best[v])
    requires r.avoidedEdges == avoided && r.blockedByReports == hits
    ensures FailedCounts(q, r)
  {
    hide LeftOut, RunsInto, EarliestAt, ReachedNodes, AllValid, Only;
    OnlyIs(best, settled);
    assert Accounts(q, r, Only(best, settled));
  }

  /** The answer when the goal is popped. */
  method Arrive(q: Query, hazard: HazardField, best: Labels, previous: Parents, queue: multiset<Entry>, avoided: nat, hits: seq<BlockedPoint>, explored: nat, least: Entry, ghost settled: set<NodeId>, ghost paths: Paths)
    returns (r: RouteResult)
    requires Valid(q) && Describes(q, hazard)
    requires Searching(q, best, previous, queue, settled, paths, avoided, hits, explored)
    requires IsLeast(least, queue) && least.node == q.goal && q.goal in best && least.at <= best[q.goal]
    ensures SearchOutcome(q, r)
  {
    hide Searching, Labelled, Tree, Relaxed, HitsOk, IsLeast, AllValid, Closed, NonNegative, Sane, ReportsOn, Straight, Reached;
    GoalPopped(q, best, previous, queue, settled, paths, avoided, hits, explored, least);
    Known(q, best, previous, queue, settled, paths, avoided, hits, explored);
    r := BuildResult(q, hazard, previous, least.at - q.depart, avoided, hits, explored + 1, best, settled, paths);
    CountsAtGoal(q, best, previous, queue, settled, paths, avoided, hits, explored, least, r);
    hide FoundCounts;
    ghost var p := Straighten(q, best, previous, settled, paths, q.goal);
    SameReport(q, r, paths[q.goal], p);
    assert BestRoute(q, r, p);
  }

  lemma SameReport(q: Query, r: RouteResult, p: seq<Edge>, o: seq<Edge>)
    requires AllValid(q.slices) && NodesOn(q, p) == NodesOn(q, o) && ReportsOn(q, r, p)
    ensures ReportsOn(q, r, o)
  {
    assert |p| + 1 == |NodesOn(q, p)| == |o| + 1;
  }

  /** The answer when the queue has run out. */
  lemma NoRouteThen(q: Query, best: Labels, previous: Parents, settled: set<NodeId>, paths: Paths, avoided: nat, hits: seq<BlockedPoint>, explored: nat, r: RouteResult)
    requires Valid(q) && Searching(q, best, previous, multiset{}, settled, paths, avoided, hits, explored)
    requires r == NoRoute(if avoided > 0 || hits != [] then CutOffByHazard else NotConnected, 0.0, avoided, hits, explored)
    ensures SearchOutcome(q, r)
  {
    hide State, Relaxed, HitsOk, Counted, ClosedFrom, FailedCounts, EarliestAt, ReachedNodes, Reached, Obstructed, AllValid, Closed, NonNegative, Sane;
    QueueEmpty(q, best, previous, settled, paths, avoided, hits, explored);
    CountsAtEnd(q, best, settled, avoided, hits, r);
  }

  method FindRoute(q: Query, hazard: HazardField) returns (r: RouteResult)
    requires Valid(q) && Describes(q, hazard)
    ensures SearchOutcome(q, r)
  {
    assert q.speed > 0.0 && AllValid(q.slices);
    hide *;
    var queue := multiset{Entry(q.depart, q.start)};
    var best: Labels := map[q.start := q.depart];
    var previous: Parents := map[];
    var avoided, explored := 0, 0;
    var hits: seq<BlockedPoint> := [];
    ghost var settled: set<NodeId> := {};
    ghost var paths: Paths := map[q.start := []];
    Begin(q);
    while queue != multiset{}
      invariant Searching(q, best, previous, queue, settled, paths, avoided, hits, explored)
      decreases q.g.Keys - settled, |queue|
    {
      var least, rest := PopLeast(queue);
      SkipStale(q, best, previous, queue, settled, paths, avoided, hits, explored, least);
      if least.at > best[least.node] {
        queue := rest;
        continue;
      }
      var node := least.node;
      if node == q.goal {
        r := Arrive(q, hazard, best, previous, queue, avoided, hits, explored, least, settled, paths);
        return;
      }
      Parts(q, best, previous, queue, settled, paths, avoided, hits, explored);
      explored := explored + 1;
      StartExpanding(q, best, previous, queue, settled, paths, least);
      if least.at - q.depart > q.maxDuration {
        OverBudget(q, best, previous, rest, settled, paths, avoided, hits, node, least.at);
        queue, settled := rest, settled + {node};
        continue;
      }
      ghost var best0, avoided0, hits0 := best, avoided, hits;
      best, previous, queue, avoided, hits, paths := Expand(q, hazard, node, least.at, best, previous, rest, avoided, hits, settled + {node}, paths);
      Expanded(q, best0, best, previous, queue, settled, paths, avoided0, hits0, avoided, hits, node, least.at);
      settled := settled + {node};
    }
    var reason := if avoided > 0 || hits != [] then CutOffByHazard else NotConnected;
    r := NoRoute(reason, 0.0, avoided, hits, explored);
    NoRouteThen(q, best, previous, settled, paths, avoided, hits, explored, r);
  }

  /** The early answers about the start, then the search. */
  method Plan(q: Query, hazard: HazardField) returns (r: RouteResult)
    requires Valid(q) && Describes(q, hazard)
    ensures Outcome(q, r)
  {
    var blockedStart := hazard.BlockedByFieldReport(q.dist, q.start);
    if blockedStart.Some? {
      assert Report(q, q.start) == blockedStart;
      return NoRoute(StartClosed(blockedStart.value), 0.0, 0, [blockedStart.value], 0);
    }
    var startRisk := hazard.Risk(q.start, q.depart);
    if EdgeMultiplier(q.policy, startRisk).None? {
      return NoRoute(StartInHazard(startRisk), startRisk, 0, [], 0);
    }
    r := FindRoute(q, hazard);
  }

  /** Both ends snapped to the road, and the answer for what was found there. */
  ghost predicate Planned(g: Adjacency, dist: Metric, speed: real, slices: seq<HazardSlice>, blocked: seq<BlockedPoint>, policy: HazardPolicy, depart: real, maxDuration: real, start: Option<NodeId>, goal: Option<NodeId>, r: RouteResult) {
    match (start, goal)
    case (None, _) => r == NoRoute(NoRoadAtOrigin, 0.0, 0, [], 0)
    case (Some(_), None) => r == NoRoute(NoRoadAtDestination, 0.0, 0, [], 0)
    case (Some(s), Some(d)) =>
      var q := Query(g, dist, speed, slices, blocked, policy, s, d, depart, maxDuration);
      Valid(q) && Outcome(q, r)
  }

  method PlanRoute(graph: RoadGraph, dist: Metric, speed: real, hazard: HazardField, policy: HazardPolicy, origin: NodeId, destination: NodeId, depart: real, maxDuration: real, snapDistance: real)
    returns (r: RouteResult)
    requires graph.Valid() && NonNegative(graph.nodes) && hazard.Valid() && speed > 0.0 && Sane(policy)
    ensures exists start, goal ::
      && Snapped(graph.nodes.Keys, dist, origin, snapDistance, start)
      && Snapped(graph.nodes.Keys, dist, destination, snapDistance, goal)
      && Planned(graph.nodes, dist, speed, hazard.slices, hazard.blocked, policy, depart, maxDuration, start, goal, r)
  {
    hide Snapped, Outcome, NonNegative, Sane, AllValid;
    var start, goal;
    ghost var read;
    start, read := graph.NearestNode(dist, origin, snapDistance);
    goal, read := graph.NearestNode(dist, destination, snapDistance);
    if start.None? {
      r := NoRoute(NoRoadAtOrigin, 0.0, 0, [], 0);
    } else if goal.None? {
      r := NoRoute(NoRoadAtDestination, 0.0, 0, [], 0);
    } else {
      var q := Query(graph.nodes, dist, speed, hazard.slices, hazard.blocked, policy, start.value, goal.value, depart, maxDuration);
      r := Plan(q, hazard);
    }
    assert Planned(graph.nodes, dist, speed, hazard.slices, hazard.blocked, policy, depart, maxDuration, start, goal, r);
  }
}
