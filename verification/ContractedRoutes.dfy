/** Planning on the contracted graph answers for the full one. */
module ContractedRoutes {
  import opened Options
  import opened Geometry
  import opened Walks
  import opened Hazard
  import opened Routes
  import opened Search
  import opened RouteLaws
  import opened Connectivity
  import opened RoadGraphs
  import opened Sums
  import opened Chains
  import opened Contraction
  import opened Planner
  import opened Loading

  /** A contracted graph meets what the planner asks of a graph. */
  lemma ContractionUsable(g: Adjacency, c: Adjacency, spacing: real)
    requires WellFormed(g) && IsContraction(g, c, spacing)
    ensures Closed(c) && NonNegative(c)
  {
    forall a, e | a in c && e in c[a]
      ensures e.target in c && e.length >= 0.0
    {
      assert SegmentOk(g, c, g.Keys - c.Keys, spacing, a, e);
      var p :| IsWalk(g, a, p, e.target) && Length(p) == e.length;
      NeverNegative(g, a, p, e.target);
    }
  }

  lemma {:induction false} LastStep(g: Adjacency, u: NodeId, p: seq<Edge>, v: NodeId) returns (w: NodeId)
    requires IsWalk(g, u, p, v) && p != []
    ensures IsWalk(g, u, Init(p), w) && Last(p) in Neighbours(g, w) && Last(p).target == v
    ensures Length(p) == Length(Init(p)) + Last(p).length
    decreases |p|
  {
    if |p| == 1 {
      assert Init(p) == [] && p[1..] == [];
      w := u;
    } else {
      w := LastStep(g, p[0].target, p[1..], v);
      assert Init(p)[1..] == Init(p[1..]) && Init(p)[0] == p[0];
    }
  }

  lemma DriveAdd(a: real, b: real, speed: real)
    requires speed > 0.0
    ensures Drive(a + b, speed) == Drive(a, speed) + Drive(b, speed) && Drive(0.0, speed) == 0.0
    ensures Drive(a, speed) * speed == a
  {
    assert (a + b) / speed == a / speed + b / speed;
  }

  lemma DriveOrder(a: real, b: real, speed: real)
    requires speed > 0.0 && a <= b
    ensures Drive(a, speed) <= Drive(b, speed)
  {
    assert (b - a) / speed >= 0.0;
    assert b / speed == a / speed + (b - a) / speed;
  }

  lemma DriveWithin(budget: real, speed: real)
    requires speed > 0.0
    ensures Drive(budget * speed, speed) == budget
  {
  }

  /** On a calm day every walk within the budget is admissible and takes its length over the speed. */
  lemma {:induction false} CalmWalk(q: Query, p: seq<Edge>, v: NodeId)
    requires Valid(q) && Calm(q) && IsWalk(q.g, q.start, p, v) && Length(p) <= q.maxDuration * q.speed
    ensures Admissible(q, p) && End(q, p) == v && Arrival(q, p) == q.depart + Drive(Length(p), q.speed)
    decreases |p|
  {
    hide Drive, Enter, Calm;
    DriveAdd(0.0, 0.0, q.speed);
    if p != [] {
      var w := LastStep(q.g, q.start, p, v);
      assert w in q.g && Last(p).length >= 0.0;
      CalmWalk(q, Init(p), w);
      CalmEnter(q, Last(p), Arrival(q, Init(p)));
      DriveOrder(Length(Init(p)), q.maxDuration * q.speed, q.speed);
      DriveWithin(q.maxDuration, q.speed);
      DriveAdd(Length(Init(p)), Last(p).length, q.speed);
    }
  }

  /** And conversely: the arrival of any admissible path is its length over the speed. */
  lemma {:induction false} CalmArrival(q: Query, p: seq<Edge>)
    requires Valid(q) && Calm(q) && Admissible(q, p)
    ensures Arrival(q, p) == q.depart + Drive(Length(p), q.speed)
    decreases |p|
  {
    hide Drive, Enter, Calm, AllValid, Closed, NonNegative, Sane;
    DriveAdd(0.0, 0.0, q.speed);
    if p != [] {
      CalmArrival(q, Init(p));
      CalmEnter(q, Last(p), Arrival(q, Init(p)));
      LengthAppend(Init(p), [Last(p)]);
      assert p == Init(p) + [Last(p)] && [Last(p)][1..] == [];
      DriveAdd(Length(Init(p)), Last(p).length, q.speed);
    }
  }

  /** No admissible walk of the contracted graph is shorter than the route found. */
  lemma FoundShortest(q: Query, r: RouteResult, w: seq<Edge>)
    requires Valid(q) && Calm(q) && Outcome(q, r)
    requires IsWalk(q.g, q.start, w, q.goal) && Length(w) <= q.maxDuration * q.speed
    ensures r.found && r.duration * q.speed <= Length(w)
    ensures WalkOfLength(q.g, q.start, q.goal, r.duration * q.speed)
  {
    hide *;
    CalmWalk(q, w, q.goal);
    var p := FoundDrive(q, r, w);
    DriveBack(r.duration, Length(p), Length(w), q.speed);
    IsWalkOfLength(q.g, q.start, p, q.goal, r.duration * q.speed);
  }

  lemma FoundDrive(q: Query, r: RouteResult, w: seq<Edge>) returns (p: seq<Edge>)
    requires Valid(q) && Calm(q) && Outcome(q, r)
    requires Admissible(q, w) && End(q, w) == q.goal && Arrival(q, w) == q.depart + Drive(Length(w), q.speed)
    ensures r.found && IsWalk(q.g, q.start, p, q.goal) && q.speed > 0.0
    ensures r.duration == Drive(Length(p), q.speed) <= Drive(Length(w), q.speed)
  {
    assert q.speed > 0.0 && AllValid(q.slices);
    hide *;
    CalmStart(q);
    p := AnyPathIsMatched(q, r, w);
    PathToIs(q, p, q.goal, q.depart + r.duration);
    CalmArrival(q, p);
    PathIsWalk(q, p);
  }

  lemma PathToIs(q: Query, p: seq<Edge>, v: NodeId, t: real)
    requires q.speed > 0.0 && AllValid(q.slices) && PathTo(q, p, v, t)
    ensures Admissible(q, p) && End(q, p) == v && Arrival(q, p) == t
  {
  }

  lemma IsWalkOfLength(g: Adjacency, u: NodeId, p: seq<Edge>, v: NodeId, length: real)
    requires IsWalk(g, u, p, v) && Length(p) == length
    ensures WalkOfLength(g, u, v, length)
  {
  }

  lemma ScaledOrder(a: real, b: real, s: real)
    requires a <= b && s > 0.0
    ensures a * s <= b * s
  {
    NonNegativeProduct(b - a, s);
    assert (b - a) * s == b * s - a * s;
  }

  lemma DriveBack(duration: real, own: real, other: real, speed: real)
    requires speed > 0.0 && duration == Drive(own, speed) <= Drive(other, speed)
    ensures duration * speed == own <= other
  {
    DriveAdd(own, 0.0, speed);
    DriveAdd(other, 0.0, speed);
    ScaledOrder(duration, Drive(other, speed), speed);
  }

  lemma ShorterWalk(g: Adjacency, c: Adjacency, spacing: real, u: NodeId, w: seq<Edge>, v: NodeId) returns (p: seq<Edge>)
    requires IsContraction(g, c, spacing) && u in c && v in c && IsWalk(g, u, w, v)
    ensures IsWalk(c, u, p, v) && Length(p) <= Length(w)
  {
    hide IsWalk, Length, SegmentsOk, Fate, KeptFor, Total, PairSum;
    p :| IsWalk(c, u, p, v) && Length(p) <= Length(w);
  }

  lemma SameLength(g: Adjacency, c: Adjacency, spacing: real, u: NodeId, v: NodeId, length: real)
    requires IsContraction(g, c, spacing) && u in c && WalkOfLength(c, u, v, length)
    ensures WalkOfLength(g, u, v, length)
  {
    hide IsWalk, Length, SegmentsOk, Fate, KeptFor, Total, PairSum;
  }

  /** With no hazards, a route planned between kept nodes of the contracted graph
      is found whenever the full graph has a walk within the budget, and its
      duration is that of the shortest walk of the full graph. */
  lemma ContractedRouteIsShortest(g: Adjacency, spacing: real, q: Query, r: RouteResult, within: seq<Edge>)
    requires WellFormed(g) && IsContraction(g, q.g, spacing)
    requires Valid(q) && Calm(q) && Outcome(q, r)
    requires IsWalk(g, q.start, within, q.goal) && Length(within) <= q.maxDuration * q.speed
    ensures r.found && WalkOfLength(g, q.start, q.goal, r.duration * q.speed)
    ensures forall w :: IsWalk(g, q.start, w, q.goal) ==> r.duration * q.speed <= Length(w)
  {
    assert q.start in q.g && q.goal in q.g;
    hide *;
    var p := ShorterWalk(g, q.g, spacing, q.start, within, q.goal);
    FoundShortest(q, r, p);
    SameLength(g, q.g, spacing, q.start, q.goal, r.duration * q.speed);
    forall w | IsWalk(g, q.start, w, q.goal)
      ensures r.duration * q.speed <= Length(w)
    {
      if Length(w) <= q.maxDuration * q.speed {
        var o := ShorterWalk(g, q.g, spacing, q.start, w, q.goal);
        FoundShortest(q, r, o);
      }
    }
  }

  /** Load one mode's roads and plan on them: the whole way from features to an answer. */
  method LoadAndPlan(fs: seq<Feature>, passable: Passable, dist: Metric, source: string, speed: real, hazard: HazardField, policy: HazardPolicy, origin: NodeId, destination: NodeId, depart: real, maxDuration: real, snapDistance: real)
    returns (r: RouteResult, full: RoadGraph, graph: RoadGraph)
    requires hazard.Valid() && speed > 0.0 && Sane(policy)
    ensures WellFormed(full.nodes) && Measured(full.nodes, dist) && IsContraction(full.nodes, graph.nodes, MIN_NODE_SPACING_M)
    ensures full.nodes == Roads(fs, passable, dist)
    ensures exists start, goal ::
      && Snapped(graph.nodes.Keys, dist, origin, snapDistance, start)
      && Snapped(graph.nodes.Keys, dist, destination, snapDistance, goal)
      && Planned(graph.nodes, dist, speed, hazard.slices, hazard.blocked, policy, depart, maxDuration, start, goal, r)
  {
    full, graph := LoadRoadGraph(fs, passable, dist, source);
    ContractionUsable(full.nodes, graph.nodes, MIN_NODE_SPACING_M);
    hide IsContraction, WellFormed, Measured, Snapped, Planned, JoinedByOne, HasEdge;
    r := PlanRoute(graph, dist, speed, hazard, policy, origin, destination, depart, maxDuration, snapDistance);
  }
}
