/** What the report on a route measures: the path itself. */
module RouteMeasures {
  import opened Options
  import opened Geometry
  import opened Walks
  import opened Hazard
  import opened Routes
  import opened Reporting
  import opened RouteLaws
  import opened Sums

  lemma Further(q: Query, p: seq<Edge>)
    requires Valid(q) && Admissible(q, p) && Straight(q, p) && p != []
    ensures var m, n := NodesOn(q, Init(p)), NodesOn(q, p);
      && DistanceTo(q, n, |p|) == DistanceTo(q, m, |p| - 1) + Last(p).length
      && ElapsedTo(q, n, |p|) == ElapsedTo(q, m, |p| - 1) + Drive(Last(p).length, ReportSpeed(q.speed))
  {
    hide *;
    PrefixFacts(q, p);
    ReportPrefix(q, NodesOn(q, Init(p)), NodesOn(q, p), |p| - 1);
    OneEdgeReported(q, NodesOn(q, p), |p|);
  }

  lemma DriveSum(a: real, b: real, speed: real)
    requires speed > 0.0
    ensures Drive(a, speed) + Drive(b, speed) == Drive(a + b, speed) && Drive(0.0, speed) == 0.0
  {
  }

  lemma LengthLast(p: seq<Edge>)
    requires p != []
    ensures Length(p) == Length(Init(p)) + Last(p).length && |Init(p)| == |p| - 1
  {
    LengthAppend(Init(p), [Last(p)]);
    assert p == Init(p) + [Last(p)] && [Last(p)][1..] == [];
  }

  /** The distance reported is the length of the path, and the report's clock runs
      it at the mode's speed, or at the floor if that is slower. */
  lemma {:induction false} DistanceIsLength(q: Query, p: seq<Edge>)
    requires Valid(q) && Admissible(q, p) && Straight(q, p)
    ensures DistanceTo(q, NodesOn(q, p), |p|) == Length(p)
    ensures ElapsedTo(q, NodesOn(q, p), |p|) == Drive(Length(p), ReportSpeed(q.speed))
    decreases |p|
  {
    hide *;
    if p == [] {
      NothingDriven(q);
    } else {
      PrefixFacts(q, p);
      LengthLast(p);
      DistanceIsLength(q, Init(p));
      Further(q, p);
      DriveSum(Length(Init(p)), Last(p).length, ReportSpeed(q.speed));
    }
  }

  lemma NothingDriven(q: Query)
    ensures DistanceTo(q, NodesOn(q, []), 0) == Length([]) == 0.0
    ensures ElapsedTo(q, NodesOn(q, []), 0) == Drive(Length([]), ReportSpeed(q.speed))
  {
    DriveSum(0.0, 0.0, ReportSpeed(q.speed));
  }

  lemma {:induction false} SumBetween(s: seq<real>, lo: real, hi: real)
    requires forall x :: x in s ==> lo <= x <= hi
    ensures lo * |s| as real <= SumOf(s) <= hi * |s| as real
    decreases |s|
  {
    if s != [] {
      var n := |s| - 1;
      assert Last(s) == s[n] && s[n] in s;
      assert forall x :: x in Init(s) ==> x in s;
      SumBetween(Init(s), lo, hi);
      assert |s| as real == |Init(s)| as real + 1.0;
    }
  }

  /** A sum is that of its parts. */
  lemma {:induction false} SumOfParts(s: seq<real>, t: seq<real>)
    ensures SumOf(s + t) == SumOf(s) + SumOf(t)
    ensures forall x :: SumOf([x]) == x
    decreases |t|
  {
    forall x
      ensures SumOf([x]) == x
    {
      assert Init([x]) == [];
    }
    if t == [] {
      assert s + t == s;
    } else {
      SumOfParts(s, Init(t));
      assert Init(s + t) == s + Init(t);
    }
  }

  lemma MeanBetween(s: seq<real>, m: real, mean: real)
    requires s != [] && (forall x :: x in s ==> 0.0 <= x <= m) && mean == SumOf(s) / |s| as real
    ensures 0.0 <= mean <= m && mean * |s| as real == SumOf(s)
  {
    SumBetween(s, 0.0, m);
    hide SumOf;
    Quotient(SumOf(s), m, |s| as real);
  }

  lemma Quotient(sum: real, m: real, n: real)
    requires n > 0.0 && 0.0 * n <= sum <= m * n
    ensures 0.0 <= sum / n <= m && sum / n * n == sum
  {
    Divided(sum, m * n, n, n);
    assert m * n / n == m;
  }

  /** The report is about the path: from start to goal, as long as the path, its
      mean risk between zero and its maximum. */
  lemma ReportMeasures(q: Query, r: RouteResult, p: seq<Edge>)
    requires Valid(q) && BestRoute(q, r, p)
    ensures r.distance == Length(p) && |r.coordinates| == |p| + 1
    ensures r.coordinates[0] == (q.start.lon, q.start.lat) && r.coordinates[|p|] == (q.goal.lon, q.goal.lat)
    ensures 0.0 <= r.meanRisk <= r.maxRisk
  {
    hide *;
    var nodes := NodesOn(q, p);
    Reported(q, r, p);
    DistanceIsLength(q, p);
    NodesOnEnds(q, p);
    MeanReported(q, r, nodes);
  }

  lemma Reported(q: Query, r: RouteResult, p: seq<Edge>)
    requires Valid(q) && BestRoute(q, r, p)
    ensures q.speed > 0.0 && AllValid(q.slices) && Admissible(q, p) && End(q, p) == q.goal && Straight(q, p)
    ensures r.coordinates == Coordinates(NodesOn(q, p)) && r.distance == DistanceTo(q, NodesOn(q, p), |p|)
    ensures RisksReported(q, r, NodesOn(q, p))
  {
    hide RisksOf, Straight, NodesOn, Coordinates, DistanceTo, Admissible, AllValid;
  }

  ghost predicate RisksReported(q: Query, r: RouteResult, nodes: seq<NodeId>)
    requires AllValid(q.slices)
  {
    exists risks :: RisksOf(q, nodes, risks) && IsMaximum(r.maxRisk, risks) && r.meanRisk == SumOf(risks) / |risks| as real
  }

  lemma MeanReported(q: Query, r: RouteResult, nodes: seq<NodeId>)
    requires AllValid(q.slices) && nodes != [] && RisksReported(q, r, nodes)
    ensures 0.0 <= r.meanRisk <= r.maxRisk
  {
    var risks :| RisksOf(q, nodes, risks) && IsMaximum(r.maxRisk, risks) && r.meanRisk == SumOf(risks) / |risks| as real;
    hide SumOf, RiskAt, ElapsedTo, AllValid;
    forall x | x in risks
      ensures 0.0 <= x <= r.maxRisk
    {
      var i :| 0 <= i < |risks| && risks[i] == x;
      RiskMonotone(q.slices, nodes[i], ElapsedTo(q, nodes, i), ElapsedTo(q, nodes, i));
    }
    MeanBetween(risks, r.maxRisk, r.meanRisk);
  }
}
