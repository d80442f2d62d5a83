/** Turning the predecessor tree into the reported route. */
module Reporting {
  import opened Options
  import opened Geometry
  import opened Walks
  import opened Hazard
  import opened Routes
  import opened Search
  import opened Expansion

  function Reversed<T>(s: seq<T>): (r: seq<T>)
    ensures |r| == |s|
  {
    if s == [] then [] else [Last(s)] + Reversed(Init(s))
  }

  lemma {:induction false} NodesOnEnds(q: Query, p: seq<Edge>)
    ensures NodesOn(q, p)[0] == q.start && NodesOn(q, p)[|p|] == End(q, p)
  {
    if p != [] {
      NodesOnEnds(q, Init(p));
    }
  }

  /** One step back in the tree: to a shorter path, with the same nodes but the last. */
  lemma StepBack(q: Query, best: Labels, previous: Parents, settled: set<NodeId>, paths: Paths, v: NodeId)
    requires Valid(q) && Labelled(q, best, paths) && Tree(q, best, previous, settled, paths) && v in paths && v != q.start
    ensures v in previous && previous[v] in paths && |paths[previous[v]]| < |paths[v]|
    ensures NodesOn(q, paths[v]) == NodesOn(q, paths[previous[v]]) + [v]
  {
    assert ParentOk(previous, settled, paths, v);
    assert PathTo(q, paths[v], v, best[v]);
  }

  lemma MoreReversed(s: seq<NodeId>, x: NodeId)
    ensures Reversed(s + [x]) == [x] + Reversed(s)
  {
    assert Init(s + [x]) == s;
  }

  /** Walking back from the goal along `previous` recovers the nodes of the path
      behind the goal's label, and ends: each step is to a shorter path. */
  method WalkBack(q: Query, previous: Parents, ghost best: Labels, ghost settled: set<NodeId>, ghost paths: Paths) returns (nodes: seq<NodeId>)
    requires Valid(q) && Labelled(q, best, paths) && Tree(q, best, previous, settled, paths) && q.goal in best
    ensures nodes == NodesOn(q, paths[q.goal])
  {
    assert q.goal in paths && paths[q.start] == [] && NodesOn(q, []) == [q.start];
    hide *;
    var path := [q.goal];
    var current := q.goal;
    ghost var tail: seq<NodeId> := [];
    ReversedOne(q.goal);
    assert NodesOn(q, paths[q.goal]) == NodesOn(q, paths[q.goal]) + [];
    while current != q.start
      invariant current in paths
      invariant Reversed(path) == [current] + tail
      invariant NodesOn(q, paths[q.goal]) == NodesOn(q, paths[current]) + tail
      decreases |paths[current]|
    {
      StepBack(q, best, previous, settled, paths, current);
      MoreReversed(path, previous[current]);
      Regroup(NodesOn(q, paths[previous[current]]), current, tail);
      tail := [current] + tail;
      current := previous[current];
      path := path + [current];
    }
    nodes := Reversed(path);
  }

  lemma ReversedOne(x: NodeId)
    ensures Reversed([x]) == [x] + []
  {
    assert Init([x]) == [];
  }

  lemma Regroup(s: seq<NodeId>, x: NodeId, t: seq<NodeId>)
    ensures (s + [x]) + t == s + ([x] + t)
  {
  }

  /** Replacing each edge by the shortest beside it keeps every arrival: the
      search has already taken the best of them. */
  lemma {:induction false} Straighten(q: Query, best: Labels, previous: Parents, settled: set<NodeId>, paths: Paths, v: NodeId) returns (p: seq<Edge>)
    requires Valid(q) && Labelled(q, best, paths) && Tree(q, best, previous, settled, paths) && Relaxed(q, best, settled)
    requires v in best
    ensures PathTo(q, p, v, best[v]) && NodesOn(q, p) == NodesOn(q, paths[v]) && Straight(q, p)
    decreases |paths[v]|
  {
    if v == q.start {
      p := [];
    } else {
      var u := previous[v];
      assert ParentOk(previous, settled, paths, v);
      assert PathTo(q, paths[v], v, best[v]) && PathTo(q, paths[u], u, best[u]);
      var e := Last(paths[v]);
      var pu := Straighten(q, best, previous, settled, paths, u);
      var f := ShortestBeside(q, best, settled, u, e);
      ExtendPath(q, pu, f);
      p := pu + [f];
      assert Init(p) == pu;
      StraightMore(q, pu, f);
    }
  }

  lemma ShortestBeside(q: Query, best: Labels, settled: set<NodeId>, u: NodeId, e: Edge) returns (f: Edge)
    requires Valid(q) && Relaxed(q, best, settled) && u in settled
    requires e in Neighbours(q.g, u) && best[u] - q.depart <= q.maxDuration
    requires e.target in best && Enter(q, e, best[u]) == Some(best[e.target])
    ensures f in Neighbours(q.g, u) && f.target == e.target && f.length == Segment(q, u, e.target)
    ensures Enter(q, f, best[u]) == Some(best[e.target])
  {
    hide Enter, AllValid, Sane, Closed;
    var least := Shortest(Neighbours(q.g, u), e.target);
    assert least.Some? && least.value <= e.length;
    f :| f in Neighbours(q.g, u) && f.target == e.target && f.length == least.value;
    assert u in q.g && f.length >= 0.0;
    EnterMonotone(q, f, e, best[u], best[u]);
    assert EdgeRelaxed(q, best, u, f);
  }

  lemma StraightMore(q: Query, p: seq<Edge>, f: Edge)
    requires Straight(q, p) && f.length == Segment(q, End(q, p), f.target)
    ensures Straight(q, p + [f])
  {
    var n := NodesOn(q, p + [f]);
    assert Init(p + [f]) == p && n == NodesOn(q, p) + [f.target];
    NodesOnEnds(q, p);
    forall i | 0 <= i < |p + [f]|
      ensures (p + [f])[i].length == Segment(q, n[i], n[i + 1])
    {
      if i < |p| {
        assert p[i].length == Segment(q, NodesOn(q, p)[i], NodesOn(q, p)[i + 1]);
      }
    }
  }

  method LargestAndMean(risks: seq<real>) returns (largest: real, mean: real)
    requires risks != []
    ensures IsMaximum(largest, risks) && mean == SumOf(risks) / |risks| as real
  {
    largest := risks[0];
    var sum := 0.0;
    for i := 0 to |risks|
      invariant largest in risks && forall k :: 0 <= k < i ==> risks[k] <= largest
      invariant sum == SumOf(risks[..i])
    {
      if risks[i] > largest {
        largest := risks[i];
      }
      sum := sum + risks[i];
      assert Init(risks[..i + 1]) == risks[..i];
    }
    assert risks[..|risks|] == risks;
    mean := sum / |risks| as real;
  }

  method BuildResult(q: Query, hazard: HazardField, previous: Parents, duration: real, avoided: nat, hits: seq<BlockedPoint>, explored: nat, ghost best: Labels, ghost settled: set<NodeId>, ghost paths: Paths)
    returns (r: RouteResult)
    requires Valid(q) && Describes(q, hazard)
    requires Labelled(q, best, paths) && Tree(q, best, previous, settled, paths) && q.goal in best
    ensures r.found && r.reason == None && r.duration == duration
    ensures r.avoidedEdges == avoided && r.blockedByReports == hits && r.exploredNodes == explored
    ensures ReportsOn(q, r, paths[q.goal])
  {
    hide Labelled, Tree, AllValid, RiskAt, Segment;
    var nodes := WalkBack(q, previous, best, settled, paths);
    var distance, elapsed := 0.0, 0.0;
    var first := hazard.Risk(nodes[0], 0.0);
    var risks := [first];
    for i := 0 to |nodes| - 1
      invariant distance == DistanceTo(q, nodes, i) && elapsed == ElapsedTo(q, nodes, i)
      invariant |risks| == i + 1 && forall k :: 0 <= k <= i ==> risks[k] == RiskOn(q, nodes, k)
    {
      var segment := Segment(q, nodes[i], nodes[i + 1]);
      distance := distance + segment;
      elapsed := elapsed + segment / Max(q.speed, 0.000001);
      var risk := hazard.Risk(nodes[i + 1], elapsed);
      risks := risks + [risk];
    }
    var largest, mean := LargestAndMean(risks);
    assert RisksOf(q, nodes, risks);
    r := RouteResult(true, None, Coordinates(nodes), distance, duration, largest, mean, avoided, hits, explored);
  }
}
