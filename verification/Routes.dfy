/** What an evacuation route is: paths whose edges open, close and cost by the
    time they are entered, and the outcome a search over them must report. */
module Routes {
  import opened Options
  import opened Geometry
  import opened Walks
  import opened Hazard

  datatype Query = Query(
    g: Adjacency, dist: Metric, speed: real,
    slices: seq<HazardSlice>, blocked: seq<BlockedPoint>, policy: HazardPolicy,
    start: NodeId, goal: NodeId, depart: real, maxDuration: real)

  ghost predicate Valid(q: Query) {
    && q.speed > 0.0 && Closed(q.g) && NonNegative(q.g)
    && AllValid(q.slices) && Sane(q.policy)
    && q.start in q.g && q.goal in q.g
  }

  ghost predicate NonNegative(g: Adjacency) {
    forall a, e :: a in g && e in g[a] ==> e.length >= 0.0
  }

  function Report(q: Query, n: NodeId): Option<BlockedPoint> {
    FirstReport(q.dist, q.blocked, n)
  }

  /** Driving time over a length at a speed. */
  function Drive(length: real, speed: real): real
    requires speed > 0.0
  {
    length / speed
  }

  function Travel(q: Query, e: Edge): real
    requires q.speed > 0.0
  {
    Drive(e.length, q.speed)
  }

  function Cost(travel: real, multiplier: real): real {
    travel * multiplier
  }

  /** The arrival over an edge entered at time `t`, if it may be entered then.
      The risk that decides is that of the far end at the unpenalised arrival. */
  function Enter(q: Query, e: Edge, t: real): Option<real>
    requires q.speed > 0.0 && AllValid(q.slices)
  {
    if Report(q, e.target).Some? then None
    else match EdgeMultiplier(q.policy, RiskAt(q.slices, e.target, t + Travel(q, e)))
      case None => None
      case Some(m) => Some(t + Cost(Travel(q, e), m))
  }

  /** Nobody enters an edge towards a reported closure, or where the risk at the far
      end, at the unpenalised arrival, has reached the block threshold; everyone else may. */
  lemma ClosedEdgeExactly(q: Query, e: Edge, t: real)
    requires q.speed > 0.0 && AllValid(q.slices)
    ensures Enter(q, e, t).None? <==>
      || (exists b :: b in q.blocked && q.dist(e.target, NodeId(b.lat, b.lon)) <= b.radius)
      || RiskAt(q.slices, e.target, t + Travel(q, e)) >= q.policy.blockThreshold
  {
    hide *;
    ClosedExactly(q, e.target);
    EnterUnfolded(q, e, t);
    OutOfBandFactor(q.policy, RiskAt(q.slices, e.target, t + Travel(q, e)));
  }

  /** Who enters takes the driving time times the price of the risk at the far end:
      no more than that up to the avoid threshold. */
  lemma PriceOfEdge(q: Query, e: Edge, t: real, risk: real)
    requires q.speed > 0.0 && AllValid(q.slices) && Enter(q, e, t).Some?
    requires risk == RiskAt(q.slices, e.target, t + Travel(q, e))
    ensures EdgeMultiplier(q.policy, risk).Some? && Enter(q, e, t).value - t == Travel(q, e) * EdgeMultiplier(q.policy, risk).value
    ensures risk <= q.policy.avoidThreshold ==> Enter(q, e, t).value == t + Travel(q, e)
  {
    hide *;
    EnterUnfolded(q, e, t);
    OutOfBandFactor(q.policy, risk);
    PlainCost(Travel(q, e), EdgeMultiplier(q.policy, risk).value);
  }

  lemma PlainCost(travel: real, m: real)
    ensures Cost(travel, m) == travel * m && Cost(travel, 1.0) == travel
  {
  }

  /** Driving time is length over speed. */
  lemma PlainTravel(q: Query, e: Edge)
    requires q.speed > 0.0
    ensures Travel(q, e) * q.speed == e.length
  {
  }

  lemma ClosedExactly(q: Query, n: NodeId)
    ensures Report(q, n).Some? <==> exists b :: b in q.blocked && q.dist(n, NodeId(b.lat, b.lon)) <= b.radius
  {
  }

  lemma EnterUnfolded(q: Query, e: Edge, t: real)
    requires q.speed > 0.0 && AllValid(q.slices)
    ensures var m := EdgeMultiplier(q.policy, RiskAt(q.slices, e.target, t + Travel(q, e)));
      Enter(q, e, t) == if Report(q, e.target).Some? || m.None? then None else Some(t + Cost(Travel(q, e), m.value))
  {
    hide EdgeMultiplier, RiskAt, Travel, Cost, Report, AllValid;
  }

  lemma Scaling(a: real, b: real, m: real, n: real)
    requires 0.0 <= a <= b && 1.0 <= m <= n
    ensures a <= Cost(a, m) <= Cost(b, n)
  {
    assert a * (m - 1.0) >= 0.0;
    assert a * (n - m) >= 0.0;
    assert (b - a) * n >= 0.0;
  }

  lemma TravelMonotone(q: Query, e: Edge, f: Edge)
    requires Valid(q) && 0.0 <= e.length <= f.length
    ensures 0.0 <= Travel(q, e) <= Travel(q, f)
  {
    Divided(e.length, f.length, q.speed, q.speed);
  }

  lemma Divided(a: real, b: real, s: real, r: real)
    requires 0.0 <= a <= b && 0.0 < r <= s
    ensures 0.0 <= a / s <= b / r
  {
    var x, y := a / s, b / r;
    assert x * s == a && y * r == b;
    assert y >= 0.0 && y * (s - r) >= 0.0;
    assert (y - x) * s >= 0.0;
  }

  /** The same hazards and policy. */
  ghost predicate SameHazard(q1: Query, q2: Query) {
    q1.slices == q2.slices && q1.policy == q2.policy && q1.dist == q2.dist
  }

  /** Entering no later and driving no longer to the same place, with no more
      closures there, is allowed whenever the other is, takes no longer, and
      never less than driving time. */
  lemma EnterCompared(q1: Query, q2: Query, e: Edge, f: Edge, s: real, t: real)
    requires Valid(q1) && Valid(q2) && SameHazard(q1, q2) && e.target == f.target
    requires Report(q2, e.target).None? ==> Report(q1, e.target).None?
    requires s <= t && 0.0 <= Travel(q1, e) <= Travel(q2, f) && Enter(q2, f, t).Some?
    ensures Enter(q1, e, s).Some?
    ensures s + Travel(q1, e) <= Enter(q1, e, s).value
    ensures Enter(q1, e, s).value - s <= Enter(q2, f, t).value - t
  {
    hide RiskAt, EdgeMultiplier, Sane, AllValid, Closed, NonNegative, Cost, Travel, FirstReport;
    var a, b := Travel(q1, e), Travel(q2, f);
    var r1, r2 := RiskAt(q1.slices, e.target, s + a), RiskAt(q1.slices, e.target, t + b);
    RiskMonotone(q1.slices, e.target, s + a, t + b);
    MultiplierMonotone(q1.policy, r1, r2);
    Scaling(a, b, EdgeMultiplier(q1.policy, r1).value, EdgeMultiplier(q1.policy, r2).value);
  }

  /** Entering earlier, over a shorter edge to the same place. */
  lemma EnterMonotone(q: Query, e: Edge, f: Edge, s: real, t: real)
    requires Valid(q) && e.target == f.target && 0.0 <= e.length <= f.length && s <= t
    requires Enter(q, f, t).Some?
    ensures Enter(q, e, s).Some?
    ensures Travel(q, e) >= 0.0 && s + Travel(q, e) <= Enter(q, e, s).value
    ensures Enter(q, e, s).value - s <= Enter(q, f, t).value - t
  {
    hide Valid, Enter, Travel, Report;
    TravelMonotone(q, e, f);
    EnterCompared(q, q, e, f, s, t);
  }

  // ---------- paths ----------

  function Init<T>(p: seq<T>): seq<T>
    requires p != []
  {
    p[..|p| - 1]
  }

  function Last<T>(p: seq<T>): T
    requires p != []
  {
    p[|p| - 1]
  }

  function End(q: Query, p: seq<Edge>): NodeId {
    if p == [] then q.start else Last(p).target
  }

  /** When the end of the path is reached, leaving on time. */
  function Arrival(q: Query, p: seq<Edge>): real
    requires q.speed > 0.0 && AllValid(q.slices)
  {
    if p == [] then q.depart
    else
      var t := Arrival(q, Init(p));
      match Enter(q, Last(p), t)
      case None => t
      case Some(a) => a
  }

  /** Every edge leaves the end of the path before it, within the time budget, and may be entered then. */
  ghost predicate Admissible(q: Query, p: seq<Edge>)
    requires q.speed > 0.0 && AllValid(q.slices)
  {
    p == [] ||
    (&& Admissible(q, Init(p))
     && Last(p) in Neighbours(q.g, End(q, Init(p)))
     && Arrival(q, Init(p)) - q.depart <= q.maxDuration
     && Enter(q, Last(p), Arrival(q, Init(p))).Some?)
  }

  ghost predicate PathTo(q: Query, p: seq<Edge>, v: NodeId, t: real)
    requires q.speed > 0.0 && AllValid(q.slices)
  {
    Admissible(q, p) && End(q, p) == v && Arrival(q, p) == t
  }

  ghost predicate Reached(q: Query, v: NodeId)
    requires q.speed > 0.0 && AllValid(q.slices)
  {
    exists p :: Admissible(q, p) && End(q, p) == v
  }

  /** No admissible path is at `v` before `t`, and one is there at `t`. */
  ghost predicate EarliestAt(q: Query, v: NodeId, t: real)
    requires q.speed > 0.0 && AllValid(q.slices)
  {
    (exists p :: PathTo(q, p, v, t)) && forall p :: Admissible(q, p) && End(q, p) == v ==> t <= Arrival(q, p)
  }

  lemma EarliestUnique(q: Query, v: NodeId, s: real, t: real)
    requires Valid(q) && EarliestAt(q, v, s) && EarliestAt(q, v, t)
    ensures s == t
  {
    var p :| PathTo(q, p, v, s);
    var o :| PathTo(q, o, v, t);
    assert s <= Arrival(q, o) && t <= Arrival(q, p);
  }

  lemma ExtendPath(q: Query, p: seq<Edge>, e: Edge)
    requires Valid(q) && Admissible(q, p) && e in Neighbours(q.g, End(q, p))
    requires Arrival(q, p) - q.depart <= q.maxDuration && Enter(q, e, Arrival(q, p)).Some?
    ensures PathTo(q, p + [e], e.target, Enter(q, e, Arrival(q, p)).value)
  {
    assert Init(p + [e]) == p && Last(p + [e]) == e;
  }

  lemma {:induction false} ArrivalGrows(q: Query, p: seq<Edge>)
    requires Valid(q) && Admissible(q, p)
    ensures Arrival(q, p) >= q.depart && End(q, p) in q.g
    ensures p != [] ==> Arrival(q, p) >= Arrival(q, Init(p)) + Travel(q, Last(p)) >= Arrival(q, Init(p))
  {
    if p != [] {
      ArrivalGrows(q, Init(p));
      var t := Arrival(q, Init(p));
      EnterMonotone(q, Last(p), Last(p), t, t);
    }
  }

  function NodesOn(q: Query, p: seq<Edge>): (n: seq<NodeId>)
    ensures |n| == |p| + 1
  {
    if p == [] then [q.start] else NodesOn(q, Init(p)) + [Last(p).target]
  }

  // ---------- results ----------

  datatype Reason =
    | NoRoadAtOrigin
    | NoRoadAtDestination
    | StartClosed(report: BlockedPoint)
    | StartInHazard(risk: real)
    | CutOffByHazard
    | NotConnected

  datatype RouteResult = RouteResult(
    found: bool, reason: Option<Reason>, coordinates: seq<(real, real)>,
    distance: real, duration: real, maxRisk: real, meanRisk: real,
    avoidedEdges: nat, blockedByReports: seq<BlockedPoint>, exploredNodes: nat)

  function NoRoute(reason: Reason, risk: real, avoided: nat, hits: seq<BlockedPoint>, explored: nat): RouteResult {
    RouteResult(false, Some(reason), [], 0.0, 0.0, risk, 0.0, avoided, hits, explored)
  }

  /** GeoJSON order: longitude first. */
  function Coordinates(nodes: seq<NodeId>): (c: seq<(real, real)>)
    ensures |c| == |nodes| && forall i :: 0 <= i < |c| ==> c[i] == (nodes[i].lon, nodes[i].lat)
  {
    seq(|nodes|, i requires 0 <= i < |nodes| => (nodes[i].lon, nodes[i].lat))
  }

  /** The shortest of the listed edges to `y`. */
  function Shortest(s: seq<Edge>, y: NodeId): (r: Option<real>)
    ensures r.None? <==> forall e :: e in s ==> e.target != y
    ensures r.Some? ==> exists e :: e in s && e.target == y && e.length == r.value
    ensures r.Some? ==> forall e :: e in s && e.target == y ==> r.value <= e.length
  {
    if s == [] then None
    else
      var rest := Shortest(s[1..], y);
      if s[0].target != y then rest
      else if rest.None? || s[0].length <= rest.value then Some(s[0].length)
      else rest
  }

  function Segment(q: Query, a: NodeId, b: NodeId): real {
    match Shortest(Neighbours(q.g, a), b)
    case Some(l) => l
    case None => q.dist(a, b)
  }

  /** The speed the report divides by: never below a floor. */
  function ReportSpeed(speed: real): (r: real)
    ensures r > 0.0
  {
    Max(speed, 0.000001)
  }

  /** Reported metres, seconds and risks up to the `i`-th node of the route. */
  function DistanceTo(q: Query, nodes: seq<NodeId>, i: nat): real
    requires i < |nodes|
  {
    if i == 0 then 0.0 else DistanceTo(q, nodes, i - 1) + Segment(q, nodes[i - 1], nodes[i])
  }

  function ElapsedTo(q: Query, nodes: seq<NodeId>, i: nat): real
    requires i < |nodes|
  {
    if i == 0 then 0.0
    else ElapsedTo(q, nodes, i - 1) + Drive(Segment(q, nodes[i - 1], nodes[i]), ReportSpeed(q.speed))
  }

  function RiskOn(q: Query, nodes: seq<NodeId>, i: nat): real
    requires i < |nodes| && AllValid(q.slices)
  {
    RiskAt(q.slices, nodes[i], ElapsedTo(q, nodes, i))
  }

  ghost predicate IsMaximum(m: real, risks: seq<real>) {
    m in risks && forall x :: x in risks ==> x <= m
  }

  function SumOf(s: seq<real>): real {
    if s == [] then 0.0 else SumOf(Init(s)) + Last(s)
  }

  ghost predicate RisksOf(q: Query, nodes: seq<NodeId>, risks: seq<real>)
    requires AllValid(q.slices)
  {
    |risks| == |nodes| && forall i :: 0 <= i < |nodes| ==> risks[i] == RiskOn(q, nodes, i)
  }

  /** The report on a route: what it is measured from is `p` itself, edge by edge. */
  ghost predicate ReportsOn(q: Query, r: RouteResult, p: seq<Edge>)
    requires AllValid(q.slices)
  {
    var nodes := NodesOn(q, p);
    && r.coordinates == Coordinates(nodes)
    && r.distance == DistanceTo(q, nodes, |p|)
    && exists risks :: RisksOf(q, nodes, risks) && IsMaximum(r.maxRisk, risks) && r.meanRisk == SumOf(risks) / |risks| as real
  }

  /** Each edge of the path is the shortest of those beside it. */
  ghost predicate Straight(q: Query, p: seq<Edge>) {
    forall i :: 0 <= i < |p| ==> p[i].length == Segment(q, NodesOn(q, p)[i], NodesOn(q, p)[i + 1])
  }

  ghost predicate BestRoute(q: Query, r: RouteResult, p: seq<Edge>)
    requires q.speed > 0.0 && AllValid(q.slices)
  {
    && PathTo(q, p, q.goal, q.depart + r.duration)
    && (forall o :: Admissible(q, o) && End(q, o) == q.goal ==> Arrival(q, p) <= Arrival(q, o))
    && Straight(q, p)
    && ReportsOn(q, r, p)
  }

  // ---------- the outcome of a search ----------

  ghost predicate ClosedEdge(q: Query, v: NodeId, t: real, e: Edge)
    requires q.speed > 0.0 && AllValid(q.slices)
  {
    EarliestAt(q, v, t) && t - q.depart <= q.maxDuration && e in Neighbours(q.g, v) && Enter(q, e, t).None?
  }

  /** Some edge out of a node the search expands is closed when it gets there. */
  ghost predicate Obstructed(q: Query)
    requires q.speed > 0.0 && AllValid(q.slices)
  {
    exists v, t, e :: ClosedEdge(q, v, t, e)
  }

  ghost function ReachedNodes(q: Query): set<NodeId>
    requires q.speed > 0.0 && AllValid(q.slices)
  {
    set v | v in q.g && Reached(q, v)
  }

  ghost predicate NoDuplicates<T>(s: seq<T>) {
    forall i, j :: 0 <= i < j < |s| ==> s[i] != s[j]
  }

  /** The closures listed are real, each listed once, and each met on some road. */
  ghost predicate HitsOk(q: Query, hits: seq<BlockedPoint>) {
    NoDuplicates(hits) && forall h :: h in hits ==> exists n :: n in q.g && Report(q, n) == Some(h)
  }

  ghost predicate Blank(r: RouteResult) {
    r.coordinates == [] && r.distance == 0.0 && r.duration == 0.0 && r.meanRisk == 0.0
  }

  /** The edge in place `i` out of `v`, come to at `t`, is left out for its risk. */
  ghost predicate RiskCloses(q: Query, v: NodeId, t: real, i: int)
    requires q.speed > 0.0 && AllValid(q.slices)
  {
    && t - q.depart <= q.maxDuration && 0 <= i < |Neighbours(q.g, v)|
    && Report(q, Neighbours(q.g, v)[i].target).None? && Enter(q, Neighbours(q.g, v)[i], t).None?
  }

  /** All the edges left out for their risk at the nodes of `at`, each come to at its time. */
  ghost function LeftOut(q: Query, at: map<NodeId, real>): set<(NodeId, int)>
    requires q.speed > 0.0 && AllValid(q.slices)
  {
    set v, i | v in at && 0 <= i < |Neighbours(q.g, v)| && RiskCloses(q, v, at[v], i) :: (v, i)
  }

  /** One of those nodes, left within the budget, has an edge into the closure. */
  ghost predicate RunsInto(q: Query, at: map<NodeId, real>, h: BlockedPoint) {
    exists v, e :: v in at && at[v] - q.depart <= q.maxDuration && e in Neighbours(q.g, v) && Report(q, e.target) == Some(h)
  }

  /** What the answer counts is what happens at the nodes of `at`, come to as early as can be. */
  ghost predicate Accounts(q: Query, r: RouteResult, at: map<NodeId, real>)
    requires q.speed > 0.0 && AllValid(q.slices)
  {
    && (forall v :: v in at ==> EarliestAt(q, v, at[v]))
    && r.avoidedEdges == |LeftOut(q, at)|
    && (forall h :: h in r.blockedByReports <==> RunsInto(q, at, h))
  }

  /** The nodes looked at before the goal: all that can be reached before it, and none only after it. */
  ghost predicate BeforeGoal(q: Query, r: RouteResult, at: map<NodeId, real>)
    requires q.speed > 0.0 && AllValid(q.slices)
  {
    && q.goal !in at && r.exploredNodes == |at| + 1
    && (forall v :: v in at ==> at[v] <= q.depart + r.duration)
    && (forall p :: Admissible(q, p) && Arrival(q, p) < q.depart + r.duration ==> End(q, p) in at)
  }

  /** The counters of a route found and of a search that found none. */
  ghost predicate FoundCounts(q: Query, r: RouteResult)
    requires q.speed > 0.0 && AllValid(q.slices)
  {
    exists at :: Accounts(q, r, at) && BeforeGoal(q, r, at)
  }

  ghost predicate FailedCounts(q: Query, r: RouteResult)
    requires q.speed > 0.0 && AllValid(q.slices)
  {
    exists at :: Accounts(q, r, at) && at.Keys == ReachedNodes(q)
  }

  /** What the search must answer, once origin and destination are on the road. */
  ghost predicate Outcome(q: Query, r: RouteResult)
    requires Valid(q)
  {
    && HitsOk(q, r.blockedByReports)
    && (r.found <==> r.reason.None?)
    && (!r.found ==> Blank(r))
    && (match Report(q, q.start)
        case Some(report) =>
          r.reason == Some(StartClosed(report)) && r.blockedByReports == [report] && r.maxRisk == 0.0
          && r.avoidedEdges == 0 && r.exploredNodes == 0
        case None =>
          var risk := RiskAt(q.slices, q.start, q.depart);
          if EdgeMultiplier(q.policy, risk).None? then
            r.reason == Some(StartInHazard(risk)) && r.maxRisk == risk && r.blockedByReports == []
            && r.avoidedEdges == 0 && r.exploredNodes == 0
          else if Reached(q, q.goal) then
            r.found && r.exploredNodes <= |q.g.Keys| && FoundCounts(q, r) && exists p :: BestRoute(q, r, p)
          else
            && r.reason == Some(if Obstructed(q) then CutOffByHazard else NotConnected)
            && (r.avoidedEdges > 0 || r.blockedByReports != [] <==> Obstructed(q))
            && r.exploredNodes == |ReachedNodes(q)| && FailedCounts(q, r) && r.maxRisk == 0.0
            && forall v :: Reached(q, v) ==> exists t :: EarliestAt(q, v, t))
  }
}
