/** What the risks in a report are worth: never more than those met on the way, and
    when they are read at the times of passing. */
module ReportedRisks {
  import opened Options
  import opened Geometry
  import opened Walks
  import opened Hazard
  import opened Routes
  import opened Search
  import opened Reporting
  import opened RouteLaws
  import opened Contraction
  import opened Loading
  import opened ShapePoints

  /** The search's clock: when the route is at its `i`-th node. */
  ghost function PassedAt(q: Query, p: seq<Edge>, i: nat): real
    requires q.speed > 0.0 && AllValid(q.slices) && i <= |p|
  {
    Arrival(q, p[..i])
  }

  /** The report's clock at the same node. */
  ghost function ReportedAt(q: Query, p: seq<Edge>, i: nat): real
    requires i <= |p|
  {
    ElapsedTo(q, NodesOn(q, p), i)
  }

  // ---------- prefixes ----------

  lemma {:induction false} PrefixOf(q: Query, p: seq<Edge>, i: nat)
    requires Valid(q) && Admissible(q, p) && Straight(q, p) && i <= |p|
    ensures Admissible(q, p[..i]) && Straight(q, p[..i])
    ensures NodesOn(q, p[..i]) == NodesOn(q, p)[..i + 1]
    decreases |p|
  {
    hide *;
    if i == |p| {
      assert p[..i] == p && NodesOn(q, p)[..i + 1] == NodesOn(q, p);
    } else {
      PrefixFacts(q, p);
      InitPrefix(p, i);
      PrefixOf(q, Init(p), i);
      assert NodesOn(q, p)[..i + 1] == NodesOn(q, Init(p))[..i + 1];
    }
  }

  lemma InitPrefix(p: seq<Edge>, i: nat)
    requires i < |p|
    ensures |Init(p)| == |p| - 1 && Init(p)[..i] == p[..i] && Init(p) == p[..|p| - 1]
  {
  }

  lemma ReportedOnPrefix(q: Query, p: seq<Edge>, i: nat)
    requires Valid(q) && Admissible(q, p) && Straight(q, p) && i <= |p|
    ensures ReportedAt(q, p, i) == ElapsedTo(q, NodesOn(q, p[..i]), i)
  {
    PrefixOf(q, p, i);
    hide *;
    ReportPrefix(q, NodesOn(q, p[..i]), NodesOn(q, p), i);
  }

  /** The report's clock is never ahead of the search's. */
  lemma NeverAhead(q: Query, p: seq<Edge>, i: nat)
    requires Valid(q) && Admissible(q, p) && Straight(q, p) && i <= |p|
    ensures ReportedAt(q, p, i) <= PassedAt(q, p, i) - q.depart
  {
    PrefixOf(q, p, i);
    ReportedOnPrefix(q, p, i);
    ReportBehind(q, p[..i]);
  }

  /** No risk in the report is above the risk met at that node, leaving at zero or later. */
  lemma NeverOverstated(q: Query, p: seq<Edge>, i: nat)
    requires Valid(q) && Admissible(q, p) && Straight(q, p) && i <= |p| && q.depart >= 0.0
    ensures RiskOn(q, NodesOn(q, p), i) <= RiskAt(q.slices, NodesOn(q, p)[i], PassedAt(q, p, i))
  {
    NeverAhead(q, p, i);
    RiskMonotone(q.slices, NodesOn(q, p)[i], ReportedAt(q, p, i), PassedAt(q, p, i));
  }

  /** The largest risk reported is that of some node of the path. */
  lemma MaximumShown(q: Query, r: RouteResult, p: seq<Edge>) returns (i: nat)
    requires q.speed > 0.0 && AllValid(q.slices) && BestRoute(q, r, p)
    ensures i <= |p| && r.maxRisk == RiskOn(q, NodesOn(q, p), i)
  {
    var n := NodesOn(q, p);
    var risks :| RisksOf(q, n, risks) && IsMaximum(r.maxRisk, risks);
    i :| 0 <= i < |risks| && risks[i] == r.maxRisk;
  }

  /** For every route found: some path it reports on meets, somewhere, at least the largest risk reported. */
  lemma ReportNeverOverstates(q: Query, r: RouteResult) returns (p: seq<Edge>, i: nat)
    requires Valid(q) && Outcome(q, r) && r.found && q.depart >= 0.0
    ensures BestRoute(q, r, p) && i <= |p|
    ensures r.maxRisk <= RiskAt(q.slices, NodesOn(q, p)[i], PassedAt(q, p, i))
  {
    p := RouteOf(q, r);
    hide *;
    i := MaximumShown(q, r, p);
    NeverOverstated(q, p, i);
  }

  // ---------- when the clocks agree ----------

  ghost predicate ClocksAgree(q: Query, p: seq<Edge>)
    requires q.speed > 0.0 && AllValid(q.slices)
  {
    forall i :: 0 <= i <= |p| ==> ReportedAt(q, p, i) == PassedAt(q, p, i)
  }

  /** The edge has no length, or it is driven at the report's speed and without penalty. */
  ghost predicate UnpricedAt(q: Query, p: seq<Edge>, i: nat)
    requires q.speed > 0.0 && AllValid(q.slices) && i < |p|
  {
    p[i].length > 0.0 ==>
      && q.speed >= 0.000001
      && EdgeMultiplier(q.policy, RiskAt(q.slices, p[i].target, PassedAt(q, p, i) + Travel(q, p[i]))) == Some(1.0)
  }

  lemma SameStep(l: real, speed: real, floor: real, m: real)
    requires l >= 0.0 && speed > 0.0 && floor >= speed && m >= 1.0
    ensures Drive(l, floor) == Cost(Drive(l, speed), m) <==> (l > 0.0 ==> floor == speed && m == 1.0)
  {
    var t := Drive(l, speed);
    assert t * speed == l;
    Divided(l, l, floor, speed);
    if l == 0.0 {
      assert t == 0.0 && t * m == 0.0;
    } else {
      assert t > 0.0;
      assert m > 1.0 ==> t * (m - 1.0) > 0.0;
      if floor > speed {
        var u := Drive(l, floor);
        assert u * floor == l && u > 0.0;
        assert u * (floor - speed) > 0.0;
        assert (t - u) * speed > 0.0;
        assert t > u;
      }
    }
  }

  /** The last edge keeps the clocks together exactly when it is unpriced. */
  lemma LastClock(q: Query, p: seq<Edge>)
    requires Valid(q) && Admissible(q, p) && Straight(q, p) && p != []
    requires ReportedAt(q, Init(p), |p| - 1) == PassedAt(q, Init(p), |p| - 1)
    ensures ReportedAt(q, p, |p|) == PassedAt(q, p, |p|) <==> UnpricedAt(q, p, |p| - 1)
  {
    hide *;
    PrefixFacts(q, p);
    LastArrival(q, p);
    LastReported(q, p);
    LastUnpriced(q, p);
    LastPassed(q, p);
    SpeedFloor(q.speed);
    SameStep(Last(p).length, q.speed, ReportSpeed(q.speed), LastFactor(q, p).value);
  }

  /** The factor at which the last edge was entered. */
  ghost function LastFactor(q: Query, p: seq<Edge>): Option<real>
    requires q.speed > 0.0 && AllValid(q.slices) && p != []
  {
    EdgeMultiplier(q.policy, RiskAt(q.slices, Last(p).target, Arrival(q, Init(p)) + Travel(q, Last(p))))
  }

  lemma LastUnpriced(q: Query, p: seq<Edge>)
    requires q.speed > 0.0 && AllValid(q.slices) && p != []
    ensures UnpricedAt(q, p, |p| - 1) <==> (Last(p).length > 0.0 ==> ReportSpeed(q.speed) == q.speed && LastFactor(q, p) == Some(1.0))
  {
    hide EdgeMultiplier, RiskAt, Arrival, Travel;
  }

  lemma LastPassed(q: Query, p: seq<Edge>)
    requires q.speed > 0.0 && AllValid(q.slices) && p != []
    ensures |Init(p)| == |p| - 1
    ensures PassedAt(q, Init(p), |p| - 1) == Arrival(q, Init(p)) && PassedAt(q, p, |p|) == Arrival(q, p)
  {
    assert p[..|p|] == p && Init(p)[..|p| - 1] == Init(p);
    hide Arrival;
  }

  lemma SpeedFloor(speed: real)
    ensures ReportSpeed(speed) >= speed
  {
  }

  lemma LastReported(q: Query, p: seq<Edge>)
    requires Valid(q) && Admissible(q, p) && Straight(q, p) && p != []
    ensures ReportedAt(q, p, |p|) == ReportedAt(q, Init(p), |p| - 1) + Drive(Last(p).length, ReportSpeed(q.speed))
  {
    hide *;
    PrefixFacts(q, p);
    InitPrefix(p, |p| - 1);
    ReportedIs(q, p, |p|);
    ReportedIs(q, Init(p), |p| - 1);
    ReportPrefix(q, NodesOn(q, Init(p)), NodesOn(q, p), |p| - 1);
    OneEdgeReported(q, NodesOn(q, p), |p|);
  }

  lemma ReportedIs(q: Query, p: seq<Edge>, i: nat)
    requires i <= |p|
    ensures ReportedAt(q, p, i) == ElapsedTo(q, NodesOn(q, p), i)
  {
  }

  lemma Entered(q: Query, e: Edge, t: real)
    requires q.speed > 0.0 && AllValid(q.slices) && Sane(q.policy) && Enter(q, e, t).Some?
    ensures var m := EdgeMultiplier(q.policy, RiskAt(q.slices, e.target, t + Travel(q, e)));
      m.Some? && m.value >= 1.0 && Enter(q, e, t).value == t + Cost(Drive(e.length, q.speed), m.value)
  {
    hide *;
    EnterUnfolded(q, e, t);
    TravelIsDrive(q, e);
    var risk := RiskAt(q.slices, e.target, t + Travel(q, e));
    MultiplierMonotone(q.policy, risk, risk);
  }

  lemma LastStep(q: Query, p: seq<Edge>)
    requires Valid(q) && Admissible(q, p) && p != []
    ensures q.speed > 0.0 && AllValid(q.slices) && Sane(q.policy)
    ensures Enter(q, Last(p), Arrival(q, Init(p))).Some? && Arrival(q, p) == Enter(q, Last(p), Arrival(q, Init(p))).value
  {
    hide Enter;
  }

  lemma LastArrival(q: Query, p: seq<Edge>)
    requires Valid(q) && Admissible(q, p) && p != []
    ensures q.speed > 0.0 && AllValid(q.slices)
    ensures LastFactor(q, p).Some? && LastFactor(q, p).value >= 1.0
    ensures Arrival(q, p) == Arrival(q, Init(p)) + Cost(Drive(Last(p).length, q.speed), LastFactor(q, p).value)
  {
    hide *;
    LastStep(q, p);
    IsLastFactor(q, p);
    Entered(q, Last(p), Arrival(q, Init(p)));
  }

  lemma IsLastFactor(q: Query, p: seq<Edge>)
    requires q.speed > 0.0 && AllValid(q.slices) && p != []
    ensures LastFactor(q, p) == EdgeMultiplier(q.policy, RiskAt(q.slices, Last(p).target, Arrival(q, Init(p)) + Travel(q, Last(p))))
  {
    hide EdgeMultiplier, RiskAt, Arrival, Travel, Last, Init;
  }

  /** The report reads every risk at the time of passing exactly when the route
      leaves at zero and each edge with a length is driven, without penalty, at no
      less than the report's slowest speed. */
  lemma {:induction false} ClocksAgreeExactly(q: Query, p: seq<Edge>)
    requires Valid(q) && Admissible(q, p) && Straight(q, p)
    ensures ClocksAgree(q, p) <==> q.depart == 0.0 && forall i :: 0 <= i < |p| ==> UnpricedAt(q, p, i)
    decreases |p|
  {
    if p == [] {
      assert p[..0] == [] && ReportedAt(q, p, 0) == 0.0 && PassedAt(q, p, 0) == q.depart;
    } else {
      PrefixFacts(q, p);
      InitPrefix(p, |p| - 1);
      ClocksAgreeExactly(q, Init(p));
      OneMoreClock(q, p);
    }
  }

  lemma OneMoreClock(q: Query, p: seq<Edge>)
    requires Valid(q) && Admissible(q, p) && Straight(q, p) && p != [] && q.speed > 0.0 && AllValid(q.slices)
    requires |Init(p)| == |p| - 1
    requires ClocksAgree(q, Init(p)) <==> q.depart == 0.0 && forall i :: 0 <= i < |p| - 1 ==> UnpricedAt(q, Init(p), i)
    ensures ClocksAgree(q, p) <==> q.depart == 0.0 && forall i :: 0 <= i < |p| ==> UnpricedAt(q, p, i)
  {
    hide Valid, Admissible, Straight, UnpricedAt, ReportedAt, PassedAt, Init, AllValid;
    forall i | 0 <= i < |p|
      ensures ReportedAt(q, p, i) == ReportedAt(q, Init(p), i) && PassedAt(q, p, i) == PassedAt(q, Init(p), i)
      ensures i < |p| - 1 ==> (UnpricedAt(q, p, i) <==> UnpricedAt(q, Init(p), i))
    {
      InitClocks(q, p, i);
    }
    if ReportedAt(q, Init(p), |p| - 1) == PassedAt(q, Init(p), |p| - 1) {
      LastClock(q, p);
    }
  }

  lemma InitClocks(q: Query, p: seq<Edge>, i: nat)
    requires Valid(q) && Admissible(q, p) && Straight(q, p) && i < |p|
    ensures ReportedAt(q, p, i) == ReportedAt(q, Init(p), i) && PassedAt(q, p, i) == PassedAt(q, Init(p), i)
    ensures i < |p| - 1 ==> (UnpricedAt(q, p, i) <==> UnpricedAt(q, Init(p), i))
  {
    hide *;
    PrefixFacts(q, p);
    InitPrefix(p, i);
    PassedSame(q, p, i);
    ReportedSame(q, p, i);
    if i < |p| - 1 {
      UnpricedSame(q, p, i);
    }
  }

  lemma PassedSame(q: Query, p: seq<Edge>, i: nat)
    requires q.speed > 0.0 && AllValid(q.slices) && i < |p| && |Init(p)| == |p| - 1 && Init(p)[..i] == p[..i]
    ensures PassedAt(q, p, i) == PassedAt(q, Init(p), i)
  {
    hide Arrival, Init, AllValid;
  }

  lemma ReportedSame(q: Query, p: seq<Edge>, i: nat)
    requires i < |p| && |Init(p)| == |p| - 1 && NodesOn(q, p) == NodesOn(q, Init(p)) + [Last(p).target]
    ensures ReportedAt(q, p, i) == ReportedAt(q, Init(p), i)
  {
    hide NodesOn, Init, Last, ElapsedTo, DistanceTo;
    ReportPrefix(q, NodesOn(q, Init(p)), NodesOn(q, p), i);
  }

  lemma UnpricedSame(q: Query, p: seq<Edge>, i: nat)
    requires q.speed > 0.0 && AllValid(q.slices) && i < |p| - 1 && |Init(p)| == |p| - 1
    requires PassedAt(q, p, i) == PassedAt(q, Init(p), i)
    ensures UnpricedAt(q, p, i) <==> UnpricedAt(q, Init(p), i)
  {
    hide *;
    InitAt(p, i);
    UnpricedIs(q, p, i);
    UnpricedIs(q, Init(p), i);
  }

  lemma InitAt(p: seq<Edge>, i: nat)
    requires i < |p| - 1
    ensures i < |Init(p)| && Init(p)[i] == p[i]
  {
  }

  lemma UnpricedIs(q: Query, p: seq<Edge>, i: nat)
    requires q.speed > 0.0 && AllValid(q.slices) && i < |p|
    ensures UnpricedAt(q, p, i) <==>
      || p[i].length <= 0.0
      || (&& q.speed >= 0.000001
          && EdgeMultiplier(q.policy, RiskAt(q.slices, p[i].target, PassedAt(q, p, i) + Travel(q, p[i]))) == Some(1.0))
  {
    hide EdgeMultiplier, RiskAt, Travel, PassedAt, AllValid;
  }

  // ---------- where they do not ----------

  /** Everywhere within a degree of the origin: this value from this minute on. */
  function Everywhere(minute: int, value: real): HazardSlice {
    HazardSlice(minute, 1, 1, BBox(-1.0, -1.0, 1.0, 1.0), [value])
  }

  /** Nothing in the first hour, a little risk after it. */
  function AfterAnHour(): seq<HazardSlice> {
    [Everywhere(0, 0.0), Everywhere(60, 0.1)]
  }

  ghost predicate NearOrigin(n: NodeId) {
    -1.0 <= n.lat <= 1.0 && -1.0 <= n.lon <= 1.0
  }

  lemma RiskAfterAnHour(n: NodeId, t: real)
    requires NearOrigin(n)
    ensures AllValid(AfterAnHour())
    ensures RiskAt(AfterAnHour(), n, t) == if t < 3600.0 then 0.0 else 0.1
  {
    var s := AfterAnHour();
    assert s[0] == Everywhere(0, 0.0) && s[1] == Everywhere(60, 0.1);
    CellHoldsPoint(s[0], n);
    CellHoldsPoint(s[1], n);
    assert ValueAt(s[0], n) == Some(0.0) && ValueAt(s[1], n) == Some(0.1);
    assert Worst(s, n, 0) == 0.0 && Worst(s, n, 1) == 0.0 && Worst(s, n, 2) == 0.1;
    var h := Horizons(s);
    assert h == [0, 60];
    var k := BisectRight(h, t / 60.0);
    assert t < 3600.0 <==> t / 60.0 < 60.0;
    assert t < 3600.0 ==> h[1] as real > t / 60.0;
    assert t < 3600.0 ==> k <= 1;
    assert t >= 3600.0 ==> k == 2;
  }

  /** A road of one second, left an hour after the predictions start. */
  ghost predicate LeavesAfterAnHour(q: Query, a: NodeId, b: NodeId, e: Edge)
  {
    && a != b && NearOrigin(a) && NearOrigin(b) && q.start == a && q.goal == b
    && q.slices == AfterAnHour() && q.blocked == [] && q.policy == DEFAULT_POLICY
    && q.speed == 1.0 && q.depart == 3600.0 && q.maxDuration == 14400.0
    && q.g.Keys == {a, b} && Closed(q.g) && e in q.g[a] && e.target == b
    && forall n, f :: n in q.g && f in q.g[n] ==> f.length == 1.0
  }

  lemma IsValid(q: Query, a: NodeId, b: NodeId, e: Edge)
    requires LeavesAfterAnHour(q, a, b, e)
    ensures Valid(q)
  {
    RiskAfterAnHour(a, 0.0);
  }

  lemma OneSecond(q: Query, a: NodeId, b: NodeId, e: Edge)
    requires LeavesAfterAnHour(q, a, b, e) && Valid(q)
    ensures StartOpen(q) && PathTo(q, [e], b, 3601.0)
  {
    assert PathTo(q, [], a, 3600.0) && StartOpen(q) by {
      RiskAfterAnHour(a, 3600.0);
      hide RiskAt;
    }
    SecondEdge(q, a, b, e);
    assert [] + [e] == [e];
    hide StartOpen, RiskAt, Enter;
    ExtendPath(q, [], e);
  }

  lemma SecondEdge(q: Query, a: NodeId, b: NodeId, e: Edge)
    requires LeavesAfterAnHour(q, a, b, e) && Valid(q) && NearOrigin(b) && e.target == b && e.length == 1.0
    ensures Enter(q, e, 3600.0) == Some(3601.0)
  {
    assert Report(q, b) == None && q.speed == 1.0 && q.slices == AfterAnHour() && q.policy == DEFAULT_POLICY && AllValid(q.slices);
    hide *;
    RiskAfterAnHour(b, 3601.0);
    PlainEdge(q, e);
    EnterAs(q, e, 3600.0, 0.1, 1.0);
  }

  lemma PlainEdge(q: Query, e: Edge)
    requires q.speed == 1.0 && e.length == 1.0
    ensures Travel(q, e) == 1.0 && Cost(1.0, 1.0) == 1.0 && EdgeMultiplier(DEFAULT_POLICY, 0.1) == Some(1.0)
  {
  }

  lemma EnterAs(q: Query, e: Edge, t: real, risk: real, m: real)
    requires q.speed > 0.0 && AllValid(q.slices) && Report(q, e.target) == None
    requires RiskAt(q.slices, e.target, t + Travel(q, e)) == risk && EdgeMultiplier(q.policy, risk) == Some(m)
    ensures Enter(q, e, t) == Some(t + Cost(Travel(q, e), m))
  {
    hide RiskAt, EdgeMultiplier, Travel, Cost, Report, AllValid;
  }

  lemma {:induction false} StaysNear(q: Query, p: seq<Edge>)
    requires Valid(q) && Admissible(q, p) && forall n :: n in q.g ==> NearOrigin(n)
    ensures forall i :: 0 <= i <= |p| ==> NearOrigin(NodesOn(q, p)[i])
    decreases |p|
  {
    if p != [] {
      StaysNear(q, Init(p));
      ArrivalGrows(q, p);
      assert End(q, p) == Last(p).target;
    }
  }

  lemma {:induction false} ArrivesLast(q: Query, p: seq<Edge>, i: nat)
    requires Valid(q) && Admissible(q, p) && i <= |p|
    ensures PassedAt(q, p, i) <= Arrival(q, p)
    decreases |p|
  {
    if i == |p| {
      assert p[..i] == p;
    } else {
      ArrivalGrows(q, p);
      ArrivesLast(q, Init(p), i);
      InitPrefix(p, i);
    }
  }

  /** Read within the first hour, every risk of a report is zero. */
  lemma ReportsNothing(q: Query, p: seq<Edge>, i: nat)
    requires Valid(q) && Admissible(q, p) && Straight(q, p) && i <= |p|
    requires q.slices == AfterAnHour() && (forall n :: n in q.g ==> NearOrigin(n)) && Arrival(q, p) - q.depart < 3600.0
    ensures RiskOn(q, NodesOn(q, p), i) == 0.0
  {
    hide Arrival, Admissible, Straight, Valid, RiskAt, ElapsedTo, NodesOn;
    NeverAhead(q, p, i);
    ArrivesLast(q, p, i);
    StaysNear(q, p);
    RiskAfterAnHour(NodesOn(q, p)[i], ReportedAt(q, p, i));
  }

  /** The report is read at the wrong time: leaving after an hour, it shows no risk
      at all on a road where every risk met is 0.1. */
  lemma ReportUnderstates(q: Query, a: NodeId, b: NodeId, e: Edge, r: RouteResult)
    requires LeavesAfterAnHour(q, a, b, e) && Valid(q) && Outcome(q, r)
    ensures r.found && r.maxRisk == 0.0
    ensures RiskAt(q.slices, q.start, q.depart) == 0.1 && RiskAt(q.slices, q.goal, q.depart + r.duration) == 0.1
  {
    OneSecond(q, a, b, e);
    var p := AnyPathIsMatched(q, r, [e]);
    ReportedZero(q, a, b, e, r);
    ArrivalGrows(q, p);
    RiskAfterAnHour(a, q.depart);
    RiskAfterAnHour(b, q.depart + r.duration);
  }

  lemma ReportedZero(q: Query, a: NodeId, b: NodeId, e: Edge, r: RouteResult)
    requires LeavesAfterAnHour(q, a, b, e) && Valid(q) && Outcome(q, r) && r.found && r.duration < 3600.0
    ensures r.maxRisk == 0.0
  {
    hide *;
    NearAndLater(q, a, b, e);
    var p := RouteOf(q, r);
    var i := MaximumShown(q, r, p);
    ReportsNothing(q, p, i);
  }

  lemma NearAndLater(q: Query, a: NodeId, b: NodeId, e: Edge)
    requires LeavesAfterAnHour(q, a, b, e)
    ensures q.slices == AfterAnHour() && forall n :: n in q.g ==> NearOrigin(n)
  {
  }

  /** Such a query is there: on the loaded roads of a single way between two places a metre apart. */
  lemma SuchAQuery(f: Feature, passable: Passable, dist: Metric, a: NodeId, b: NodeId, c: Adjacency) returns (q: Query, e: Edge)
    requires a != b && NearOrigin(a) && NearOrigin(b) && dist(a, b) == 1.0 && f.points == [a, b] && Usable(f, passable)
    requires IsContraction(Roads([f], passable, dist), c, MIN_NODE_SPACING_M)
    ensures q.g == c && q.dist == dist && LeavesAfterAnHour(q, a, b, e) && Valid(q)
  {
    var g := Roads([f], passable, dist);
    assert g == map[a := [Edge(b, 1.0, f.wayId, f.tags)], b := [Edge(a, 1.0, f.wayId, f.tags)]] by {
      SinglePair(f, passable, dist);
      FirstSegment(a, b, 1.0, f.wayId, f.tags);
    }
    RoadsAreWellFormed([f], passable, dist);
    hide Roads, WellFormed;
    e := OneRoadKept(g, a, b, c);
    q := Query(c, dist, 1.0, AfterAnHour(), [], DEFAULT_POLICY, a, b, 3600.0, 14400.0);
    hide IsContraction;
    IsValid(q, a, b, e);
  }

  lemma OneRoadKept(g: Adjacency, a: NodeId, b: NodeId, c: Adjacency) returns (e: Edge)
    requires WellFormed(g) && IsContraction(g, c, MIN_NODE_SPACING_M) && a != b
    requires g.Keys == {a, b} && |g[a]| == 1 && |g[b]| == 1 && g[a][0].target == b && g[b][0].target == a
    requires g[a][0].length == 1.0 && g[b][0].length == 1.0
    ensures c.Keys == {a, b} && Closed(c) && e in c[a] && e.target == b
    ensures forall n, f :: n in c && f in c[n] ==> f.length == 1.0
  {
    hide IsContraction, WellFormed, Length, IsWalk;
    OddDegreeStays(g, c, MIN_NODE_SPACING_M, a);
    OddDegreeStays(g, c, MIN_NODE_SPACING_M, b);
    assert c.Keys == g.Keys;
    forall n, f | n in c && f in c[n]
      ensures f.length == 1.0 && f.target in c && f.target != n
    {
      var h := NothingRemoved(g, c, MIN_NODE_SPACING_M, n, f);
    }
    StepWalk(g, a, g[a][0]);
    StillWithin(g, c, MIN_NODE_SPACING_M, a, [g[a][0]], b);
    var p :| IsWalk(c, a, p, b) && Length(p) <= Length([g[a][0]]);
    e := FirstOf(c, a, p, b);
  }

  lemma FirstOf(c: Adjacency, a: NodeId, p: seq<Edge>, b: NodeId) returns (e: Edge)
    requires IsWalk(c, a, p, b) && a != b
    ensures e in Neighbours(c, a)
  {
    e := p[0];
  }
}
