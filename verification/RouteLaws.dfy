/** Laws of the planner's answers: what leaving earlier, moving faster or having
    fewer closures changes, how far the report can be trusted, and what
    "not connected" means. */
module RouteLaws {
  import opened Options
  import opened Geometry
  import opened Walks
  import opened Hazard
  import opened Routes
  import opened Search
  import opened Reporting

  // ---------- one answer ----------

  /** A route found comes with a path that it reports on. */
  lemma RouteOf(q: Query, r: RouteResult) returns (p: seq<Edge>)
    requires Valid(q) && Outcome(q, r) && r.found
    ensures q.speed > 0.0 && AllValid(q.slices) && BestRoute(q, r, p) && Admissible(q, p) && Straight(q, p)
    ensures End(q, p) == q.goal && Arrival(q, p) == q.depart + r.duration && r.duration >= 0.0
  {
    p :| BestRoute(q, r, p);
    ArrivalGrows(q, p);
  }

  /** An admissible path to the goal means a route, found no slower than it. */
  lemma AnyPathIsMatched(q: Query, r: RouteResult, o: seq<Edge>) returns (p: seq<Edge>)
    requires Valid(q) && Outcome(q, r) && StartOpen(q) && Admissible(q, o) && End(q, o) == q.goal
    ensures r.found && PathTo(q, p, q.goal, q.depart + r.duration) && q.depart + r.duration <= Arrival(q, o)
  {
    assert Reached(q, q.goal);
    p :| BestRoute(q, r, p);
  }

  /** Whether a route is found, and if not why not, depends on the query alone. */
  lemma SameReason(q: Query, r1: RouteResult, r2: RouteResult)
    requires Valid(q) && Outcome(q, r1) && Outcome(q, r2)
    ensures r1.found == r2.found && r1.reason == r2.reason
    ensures !r1.found ==> r1.duration == 0.0 && r2.duration == 0.0
  {
    hide BestRoute, HitsOk, Obstructed, Reached, EarliestAt, RiskAt, EdgeMultiplier, Report, ReachedNodes;
  }

  /** The answer is determined: found or why not, and the duration. */
  lemma OutcomeDetermined(q: Query, r1: RouteResult, r2: RouteResult)
    requires Valid(q) && Outcome(q, r1) && Outcome(q, r2)
    ensures r1.found == r2.found && r1.reason == r2.reason
    ensures r1.duration == r2.duration
  {
    hide *;
    SameReason(q, r1, r2);
    if r1.found {
      FoundStartsOpen(q, r1);
      var p1 := RouteOf(q, r1);
      var p2 := RouteOf(q, r2);
      var o1 := AnyPathIsMatched(q, r1, p2);
      var o2 := AnyPathIsMatched(q, r2, p1);
    }
  }

  /** Nodes reached have one earliest arrival each. */
  lemma SameTimes(q: Query, a: map<NodeId, real>, b: map<NodeId, real>)
    requires Valid(q) && a.Keys == b.Keys
    requires (forall v :: v in a ==> EarliestAt(q, v, a[v])) && forall v :: v in b ==> EarliestAt(q, v, b[v])
    ensures a == b
  {
    hide EarliestAt;
    forall v | v in a
      ensures a[v] == b[v]
    {
      EarliestUnique(q, v, a[v], b[v]);
    }
  }

  /** An answer without a route is determined altogether, but for the order in which closures are listed. */
  lemma NoRouteDetermined(q: Query, r1: RouteResult, r2: RouteResult)
    requires Valid(q) && Outcome(q, r1) && Outcome(q, r2) && !r1.found
    ensures r2 == r1.(blockedByReports := r2.blockedByReports)
    ensures forall h :: h in r1.blockedByReports <==> h in r2.blockedByReports
  {
    SameReason(q, r1, r2);
    hide RiskAt, EdgeMultiplier, Report, ReachedNodes, LeftOut, RunsInto, EarliestAt, Obstructed, Reached, AllValid, Sane;
    if StartOpen(q) {
      var a :| Accounts(q, r1, a) && a.Keys == ReachedNodes(q);
      var b :| Accounts(q, r2, b) && b.Keys == ReachedNodes(q);
      SameTimes(q, a, b);
    }
  }

  lemma FoundStartsOpen(q: Query, r: RouteResult)
    requires Valid(q) && Outcome(q, r) && r.found
    ensures StartOpen(q)
  {
    hide Report, EdgeMultiplier, RiskAt, HitsOk, BestRoute, Obstructed, EarliestAt, Reached;
  }

  // ---------- comparing two queries ----------

  /** Whatever the second query may do, the first may do from no later, in no more time. */
  ghost predicate Dominates(q1: Query, q2: Query)
    requires Valid(q1) && Valid(q2)
  {
    && q1.g == q2.g && q1.start == q2.start && q1.goal == q2.goal && q1.maxDuration == q2.maxDuration
    && q1.depart <= q2.depart
    && (StartOpen(q2) ==> StartOpen(q1))
    && (forall e, s, t :: NotLess(e, s, t) ==> StepDominates(q1, q2, e, s, t))
  }

  predicate NotLess(e: Edge, s: real, t: real) {
    e.length >= 0.0 && s <= t
  }

  ghost predicate StartOpen(q: Query)
    requires Valid(q)
  {
    Report(q, q.start).None? && EdgeMultiplier(q.policy, RiskAt(q.slices, q.start, q.depart)).Some?
  }

  ghost predicate StepDominates(q1: Query, q2: Query, e: Edge, s: real, t: real)
    requires Valid(q1) && Valid(q2)
  {
    Enter(q2, e, t).Some? ==> Enter(q1, e, s).Some? && Enter(q1, e, s).value - s <= Enter(q2, e, t).value - t
  }

  lemma {:induction false} PathDominated(q1: Query, q2: Query, p: seq<Edge>)
    requires Valid(q1) && Valid(q2) && Dominates(q1, q2) && Admissible(q2, p)
    ensures Admissible(q1, p) && End(q1, p) == End(q2, p)
    ensures Arrival(q1, p) - q1.depart <= Arrival(q2, p) - q2.depart
    decreases |p|
  {
    if p != [] {
      PathDominated(q1, q2, Init(p));
      ArrivalGrows(q2, Init(p));
      var e, s, t := Last(p), Arrival(q1, Init(p)), Arrival(q2, Init(p));
      assert NotLess(e, s, t);
      assert StepDominates(q1, q2, e, s, t);
    }
  }

  /** A dominating query finds a route whenever the other does, and no slower one. */
  lemma DominatingFinds(q1: Query, q2: Query, r1: RouteResult, r2: RouteResult)
    requires Valid(q1) && Valid(q2) && Dominates(q1, q2)
    requires Outcome(q1, r1) && Outcome(q2, r2) && r2.found
    ensures r1.found && r1.duration <= r2.duration
  {
    var p2 :| BestRoute(q2, r2, p2);
    PathDominated(q1, q2, p2);
    assert StartOpen(q2);
    var p1 := AnyPathIsMatched(q1, r1, p2);
  }

  ghost predicate SameRoads(q1: Query, q2: Query) {
    q1.g == q2.g && q1.start == q2.start && q1.goal == q2.goal && q1.maxDuration == q2.maxDuration
  }

  /** The general step: from no later, with the same hazards, no slower and with no more closures. */
  lemma EnterDominates(q1: Query, q2: Query, e: Edge, s: real, t: real)
    requires Valid(q1) && Valid(q2) && SameHazard(q1, q2) && q1.speed >= q2.speed
    requires Report(q2, e.target).None? ==> Report(q1, e.target).None?
    requires NotLess(e, s, t)
    ensures StepDominates(q1, q2, e, s, t)
  {
    hide Enter, Report, AllValid, Closed, NonNegative, Sane;
    Divided(e.length, e.length, q1.speed, q2.speed);
    if Enter(q2, e, t).Some? {
      EnterCompared(q1, q2, e, e, s, t);
    }
  }

  lemma StartStaysOpen(q1: Query, q2: Query)
    requires Valid(q1) && Valid(q2) && SameHazard(q1, q2) && SameRoads(q1, q2) && q1.depart <= q2.depart
    requires Report(q2, q2.start).None? ==> Report(q1, q1.start).None?
    ensures StartOpen(q2) ==> StartOpen(q1)
  {
    hide RiskAt, EdgeMultiplier, Sane, AllValid, Report;
    RiskMonotone(q1.slices, q1.start, q1.depart, q2.depart);
    if StartOpen(q2) {
      MultiplierMonotone(q1.policy, RiskAt(q1.slices, q1.start, q1.depart), RiskAt(q1.slices, q1.start, q2.depart));
    }
  }

  /** Leaving no later, moving no slower and facing no more closures: each of the
      three laws below is one of these. */
  lemma NoWorse(q1: Query, q2: Query, r1: RouteResult, r2: RouteResult)
    requires Valid(q1) && Valid(q2) && SameHazard(q1, q2) && SameRoads(q1, q2)
    requires q1.depart <= q2.depart && q1.speed >= q2.speed
    requires forall n :: Report(q2, n).None? ==> Report(q1, n).None?
    requires Outcome(q1, r1) && Outcome(q2, r2) && r2.found
    ensures r1.found && r1.duration <= r2.duration
  {
    hide *;
    NoLaterDominates(q1, q2);
    DominatingFinds(q1, q2, r1, r2);
  }

  lemma NoLaterDominates(q1: Query, q2: Query)
    requires Valid(q1) && Valid(q2) && SameHazard(q1, q2) && SameRoads(q1, q2)
    requires q1.depart <= q2.depart && q1.speed >= q2.speed
    requires forall n :: Report(q2, n).None? ==> Report(q1, n).None?
    ensures Dominates(q1, q2)
  {
    hide Valid, Report, StartOpen, StepDominates, SameHazard;
    StartStaysOpen(q1, q2);
    forall e, s, t | NotLess(e, s, t)
      ensures StepDominates(q1, q2, e, s, t)
    {
      EnterDominates(q1, q2, e, s, t);
    }
  }

  /** Leaving earlier never loses a route and never makes it longer. */
  lemma LeavingEarlierIsNoWorse(q1: Query, q2: Query, r1: RouteResult, r2: RouteResult)
    requires Valid(q1) && Valid(q2) && q1.depart <= q2.depart && q2 == q1.(depart := q2.depart)
    requires Outcome(q1, r1) && Outcome(q2, r2) && r2.found
    ensures r1.found && r1.duration <= r2.duration
  {
    hide Valid, Outcome, FirstReport;
    NoWorse(q1, q2, r1, r2);
  }

  /** On the same roads a faster mode finds a route whenever a slower one does, and no slower. */
  lemma FasterModeIsNoWorse(q1: Query, q2: Query, r1: RouteResult, r2: RouteResult)
    requires Valid(q1) && Valid(q2) && q1.speed >= q2.speed && q2 == q1.(speed := q2.speed)
    requires Outcome(q1, r1) && Outcome(q2, r2) && r2.found
    ensures r1.found && r1.duration <= r2.duration
  {
    hide Valid, Outcome, FirstReport;
    NoWorse(q1, q2, r1, r2);
  }

  /** Taking closures away never loses a route and never makes it longer. */
  lemma FewerReportsIsNoWorse(q1: Query, q2: Query, r1: RouteResult, r2: RouteResult)
    requires Valid(q1) && Valid(q2) && q2 == q1.(blocked := q2.blocked)
    requires forall b :: b in q1.blocked ==> b in q2.blocked
    requires Outcome(q1, r1) && Outcome(q2, r2) && r2.found
    ensures r1.found && r1.duration <= r2.duration
  {
    hide Valid, Outcome;
    NoWorse(q1, q2, r1, r2);
  }

  // ---------- what the report promises ----------

  /** No place on a found route lies inside a reported closure. */
  lemma {:induction false} PathAvoidsReports(q: Query, p: seq<Edge>)
    requires Valid(q) && Admissible(q, p) && Report(q, q.start).None?
    ensures forall n :: n in NodesOn(q, p) ==> Report(q, n).None?
    decreases |p|
  {
    if p != [] {
      PathAvoidsReports(q, Init(p));
    }
  }

  lemma OutsideAll(q: Query, n: NodeId)
    requires Report(q, n).None?
    ensures forall b :: b in q.blocked ==> q.dist(n, NodeId(b.lat, b.lon)) > b.radius
  {
  }

  lemma FoundIsOpen(q: Query, r: RouteResult)
    requires Valid(q) && Outcome(q, r) && r.found
    ensures Report(q, q.start).None?
  {
    hide Report, EdgeMultiplier, RiskAt, HitsOk, BestRoute, Obstructed, EarliestAt, Reached;
  }

  lemma CoordinatesOf(q: Query, r: RouteResult, p: seq<Edge>)
    requires q.speed > 0.0 && AllValid(q.slices) && BestRoute(q, r, p)
    ensures r.coordinates == Coordinates(NodesOn(q, p))
  {
  }

  lemma RouteAvoidsReports(q: Query, r: RouteResult)
    requires Valid(q) && Outcome(q, r) && r.found
    ensures r.coordinates != []
    ensures forall c, b :: c in r.coordinates && b in q.blocked ==>
              q.dist(NodeId(c.1, c.0), NodeId(b.lat, b.lon)) > b.radius
  {
    hide *;
    FoundIsOpen(q, r);
    var p := RouteOf(q, r);
    CoordinatesOf(q, r, p);
    PathAvoidsReports(q, p);
    var nodes := NodesOn(q, p);
    forall c, b | c in r.coordinates && b in q.blocked
      ensures q.dist(NodeId(c.1, c.0), NodeId(b.lat, b.lon)) > b.radius
    {
      var i :| 0 <= i < |r.coordinates| && r.coordinates[i] == c;
      assert nodes[i] in nodes && nodes[i] == NodeId(c.1, c.0);
      OutsideAll(q, nodes[i]);
    }
  }

  lemma StraightInit(q: Query, p: seq<Edge>)
    requires Straight(q, p) && p != []
    ensures Straight(q, Init(p)) && Last(p).length == Segment(q, End(q, Init(p)), Last(p).target)
  {
    var n := NodesOn(q, p);
    NodesOnEnds(q, Init(p));
    assert n == NodesOn(q, Init(p)) + [Last(p).target];
    forall i | 0 <= i < |p| - 1
      ensures Init(p)[i].length == Segment(q, NodesOn(q, Init(p))[i], NodesOn(q, Init(p))[i + 1])
    {
      assert p[i].length == Segment(q, n[i], n[i + 1]);
    }
    assert p[|p| - 1].length == Segment(q, n[|p| - 1], n[|p|]);
  }

  lemma {:induction false} ReportPrefix(q: Query, a: seq<NodeId>, b: seq<NodeId>, i: nat)
    requires i < |a| <= |b| && forall k :: 0 <= k < |a| ==> a[k] == b[k]
    ensures DistanceTo(q, a, i) == DistanceTo(q, b, i) && ElapsedTo(q, a, i) == ElapsedTo(q, b, i)
  {
    if i > 0 {
      ReportPrefix(q, a, b, i - 1);
    }
  }

  lemma Clocks(elapsed: real, distance: real, arrival: real, l: real, speed: real, s: real)
    requires 0.0 < speed <= s && l >= 0.0
    requires elapsed <= Drive(distance, speed) <= arrival
    ensures elapsed + Drive(l, s) <= Drive(distance + l, speed) <= arrival + Drive(l, speed)
    ensures 0.0 <= Drive(l, s) <= Drive(l, speed)
  {
    Divided(l, l, s, speed);
    assert (distance + l) / speed == distance / speed + l / speed;
  }

  lemma OneEdgeReported(q: Query, n: seq<NodeId>, i: nat)
    requires 0 < i < |n|
    ensures DistanceTo(q, n, i) == DistanceTo(q, n, i - 1) + Segment(q, n[i - 1], n[i])
    ensures ElapsedTo(q, n, i) == ElapsedTo(q, n, i - 1) + Drive(Segment(q, n[i - 1], n[i]), ReportSpeed(q.speed))
  {
  }

  lemma StillBehind(q: Query, p: seq<Edge>, m: seq<NodeId>, n: seq<NodeId>)
    requires Valid(q) && Admissible(q, p) && Straight(q, p) && p != [] && m == NodesOn(q, Init(p)) && n == NodesOn(q, p)
    requires ElapsedTo(q, m, |p| - 1) <= Drive(DistanceTo(q, m, |p| - 1), q.speed) <= Arrival(q, Init(p)) - q.depart
    ensures DistanceTo(q, n, |p|) == DistanceTo(q, m, |p| - 1) + Last(p).length && Last(p).length >= 0.0
    ensures ElapsedTo(q, n, |p|) <= Drive(DistanceTo(q, n, |p|), q.speed) <= Arrival(q, p) - q.depart
    ensures ElapsedTo(q, n, |p|) <= Arrival(q, Init(p)) - q.depart + Travel(q, Last(p))
  {
    hide *;
    PrefixFacts(q, p);
    ArrivalGrows(q, p);
    ReportPrefix(q, m, n, |p| - 1);
    OneEdgeReported(q, n, |p|);
    TravelIsDrive(q, Last(p));
    Clocks(ElapsedTo(q, m, |p| - 1), DistanceTo(q, m, |p| - 1), Arrival(q, Init(p)) - q.depart, Last(p).length, q.speed, ReportSpeed(q.speed));
  }

  lemma TravelIsDrive(q: Query, e: Edge)
    requires q.speed > 0.0
    ensures Travel(q, e) == Drive(e.length, q.speed)
    ensures ReportSpeed(q.speed) >= q.speed
  {
  }

  /** The report's clock starts at zero and ignores penalties, so it is never
      ahead of the search's. */
  lemma {:induction false} ReportBehind(q: Query, p: seq<Edge>)
    requires Valid(q) && Admissible(q, p) && Straight(q, p)
    ensures DistanceTo(q, NodesOn(q, p), |p|) >= 0.0
    ensures ElapsedTo(q, NodesOn(q, p), |p|) <= Drive(DistanceTo(q, NodesOn(q, p), |p|), q.speed) <= Arrival(q, p) - q.depart
    ensures p != [] ==> ElapsedTo(q, NodesOn(q, p), |p|) <= Arrival(q, Init(p)) - q.depart + Travel(q, Last(p))
    decreases |p|
  {
    if p == [] {
      assert Drive(0.0, q.speed) == 0.0;
    } else {
      StraightInit(q, p);
      hide Valid, Straight, Segment, Enter, NodesOn, Arrival, DistanceTo, ElapsedTo, Drive, Travel;
      ReportBehind(q, Init(p));
      StillBehind(q, p, NodesOn(q, Init(p)), NodesOn(q, p));
      assert DistanceTo(q, NodesOn(q, p), |p|) >= 0.0;
    }
  }

  lemma PrefixFacts(q: Query, p: seq<Edge>)
    requires Valid(q) && Admissible(q, p) && Straight(q, p) && p != []
    ensures q.speed > 0.0 && AllValid(q.slices) && Admissible(q, Init(p)) && Straight(q, Init(p)) && Last(p).length >= 0.0
    ensures NodesOn(q, p) == NodesOn(q, Init(p)) + [Last(p).target]
    ensures Segment(q, NodesOn(q, p)[|p| - 1], NodesOn(q, p)[|p|]) == Last(p).length
  {
    StraightInit(q, p);
    ArrivalGrows(q, Init(p));
    NodesOnEnds(q, Init(p));
  }

  /** Every risk the report shows was checked against the threshold, later. */
  lemma RiskShown(q: Query, p: seq<Edge>)
    requires Valid(q) && Admissible(q, p) && Straight(q, p) && q.depart >= 0.0 && StartOpen(q)
    ensures RiskOn(q, NodesOn(q, p), |p|) < q.policy.blockThreshold
  {
    hide *;
    NodesOnEnds(q, p);
    if p == [] {
      StartChecked(q);
      RiskOnIs(q, NodesOn(q, p), 0);
      NotYet(q, NodesOn(q, p));
      RiskMonotone(q.slices, q.start, 0.0, q.depart);
    } else {
      ReportBehind(q, p);
      LastChecked(q, p);
      RiskOnIs(q, NodesOn(q, p), |p|);
      RiskMonotone(q.slices, Last(p).target, ElapsedTo(q, NodesOn(q, p), |p|), Arrival(q, Init(p)) + Travel(q, Last(p)));
    }
  }

  lemma RiskOnIs(q: Query, nodes: seq<NodeId>, i: nat)
    requires i < |nodes| && AllValid(q.slices)
    ensures RiskOn(q, nodes, i) == RiskAt(q.slices, nodes[i], ElapsedTo(q, nodes, i))
  {
  }

  lemma NotYet(q: Query, nodes: seq<NodeId>)
    requires nodes != []
    ensures ElapsedTo(q, nodes, 0) == 0.0
  {
  }

  lemma StartChecked(q: Query)
    requires Valid(q) && StartOpen(q)
    ensures AllValid(q.slices) && RiskAt(q.slices, q.start, q.depart) < q.policy.blockThreshold
  {
  }

  lemma LastChecked(q: Query, p: seq<Edge>)
    requires Valid(q) && Admissible(q, p) && p != []
    ensures AllValid(q.slices) && q.speed > 0.0 && End(q, p) == Last(p).target
    ensures RiskAt(q.slices, Last(p).target, Arrival(q, Init(p)) + Travel(q, Last(p))) < q.policy.blockThreshold
  {
  }

  lemma {:induction false} AllRisksShown(q: Query, p: seq<Edge>, i: nat)
    requires Valid(q) && Admissible(q, p) && Straight(q, p) && q.depart >= 0.0 && StartOpen(q) && i <= |p|
    ensures RiskOn(q, NodesOn(q, p), i) < q.policy.blockThreshold
    decreases |p|
  {
    if i == |p| {
      RiskShown(q, p);
    } else {
      StraightInit(q, p);
      AllRisksShown(q, Init(p), i);
      ReportPrefix(q, NodesOn(q, Init(p)), NodesOn(q, p), i);
    }
  }

  /** The reported maximum stays strictly below the closing threshold, and the
      duration is at least the reported distance at full speed. */
  lemma ReportIsBounded(q: Query, r: RouteResult)
    requires Valid(q) && Outcome(q, r) && r.found && q.depart >= 0.0
    ensures 0.0 <= r.maxRisk < q.policy.blockThreshold
    ensures r.duration >= r.distance / q.speed >= 0.0
  {
    var p :| BestRoute(q, r, p);
    assert StartOpen(q);
    var n := NodesOn(q, p);
    var risks :| RisksOf(q, n, risks) && IsMaximum(r.maxRisk, risks);
    var i :| 0 <= i < |risks| && risks[i] == r.maxRisk;
    AllRisksShown(q, p, i);
    RiskMonotone(q.slices, n[i], ElapsedTo(q, n, i), ElapsedTo(q, n, i));
    ReportBehind(q, p);
    Divided(0.0, r.distance, q.speed, q.speed);
  }
}
