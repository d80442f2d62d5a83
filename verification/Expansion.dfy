/** Expanding one settled node: every edge out of it is closed, or relaxed. */
module Expansion {
  import opened Options
  import opened Geometry
  import opened Walks
  import opened Hazard
  import opened Routes
  import opened Search

  /** The query speaks of this hazard field. */
  ghost predicate Describes(q: Query, hazard: HazardField)
    reads hazard
  {
    hazard.Valid() && q.slices == hazard.slices && q.blocked == hazard.blocked
  }

  /** Labels only fall, and those of settled nodes stand. */
  ghost predicate Lowered(before: Labels, after: Labels, settled: set<NodeId>) {
    && (forall v :: v in before ==> v in after && after[v] <= before[v])
    && (forall s :: s in settled ==> s in before && s in after && after[s] == before[s])
  }

  ghost predicate ClosedAmong(q: Query, edges: seq<Edge>, t: real)
    requires q.speed > 0.0 && AllValid(q.slices)
  {
    exists e :: e in edges && Enter(q, e, t).None?
  }

  lemma StillRelaxed(q: Query, before: Labels, after: Labels, settled: set<NodeId>, done: set<NodeId>)
    requires q.speed > 0.0 && AllValid(q.slices)
    requires Lowered(before, after, settled) && done <= settled && Relaxed(q, before, done)
    ensures Relaxed(q, after, done)
  {
    forall u, e | u in done && e in Neighbours(q.g, u)
      ensures EdgeRelaxed(q, after, u, e)
    {
      assert EdgeRelaxed(q, before, u, e);
    }
  }

  lemma OneMoreEdge(q: Query, edges: seq<Edge>, i: nat, t: real)
    requires q.speed > 0.0 && AllValid(q.slices) && i < |edges|
    ensures ClosedAmong(q, edges[..i + 1], t) <==> ClosedAmong(q, edges[..i], t) || Enter(q, edges[i], t).None?
  {
    assert edges[..i + 1] == edges[..i] + [edges[i]];
    if ClosedAmong(q, edges[..i], t) {
      var e :| e in edges[..i] && Enter(q, e, t).None?;
      assert e in edges[..i + 1];
    }
  }

  lemma AddHit(q: Query, hits: seq<BlockedPoint>, report: BlockedPoint, n: NodeId)
    requires HitsOk(q, hits) && report !in hits && n in q.g && Report(q, n) == Some(report)
    ensures HitsOk(q, hits + [report])
  {
  }

  /** The counters after this node speak of it as well. */
  lemma CountersGrow(q: Query, before: Labels, after: Labels, done: set<NodeId>, node: NodeId, avoided0: nat, hits0: seq<BlockedPoint>, avoided: nat, hits: seq<BlockedPoint>)
    requires q.speed > 0.0 && AllValid(q.slices)
    requires node in before && before[node] - q.depart <= q.maxDuration
    requires Lowered(before, after, done + {node})
    requires CountersOk(q, before, done, avoided0, hits0) && HitsOk(q, hits)
    requires avoided > 0 || hits != [] <==> avoided0 > 0 || hits0 != [] || ClosedAmong(q, Neighbours(q.g, node), before[node])
    ensures CountersOk(q, after, done + {node}, avoided, hits)
  {
    forall u, e | u in done + {node}
      ensures ClosedFrom(q, after, u, e) <==> ClosedFrom(q, before, u, e)
    {
    }
    if ClosedAmong(q, Neighbours(q.g, node), before[node]) {
      var e :| e in Neighbours(q.g, node) && Enter(q, e, before[node]).None?;
      assert ClosedFrom(q, before, node, e);
    }
    if u, e :| u in done + {node} && ClosedFrom(q, before, u, e) {
      assert u == node ==> ClosedAmong(q, Neighbours(q.g, node), before[node]);
    }
  }

  // ---------- counting ----------

  /** Of the first `n` edges out of `v`, those left out for their risk. */
  ghost function LeftOutFrom(q: Query, v: NodeId, t: real, n: nat): set<(NodeId, int)>
    requires q.speed > 0.0 && AllValid(q.slices)
  {
    set i | 0 <= i < n && RiskCloses(q, v, t, i) :: (v, i)
  }

  /** A closure was met before, or is met over one of these edges. */
  ghost predicate Met(q: Query, edges: seq<Edge>, hits0: seq<BlockedPoint>, h: BlockedPoint) {
    h in hits0 || exists e :: e in edges && Report(q, e.target) == Some(h)
  }

  ghost predicate CountedFrom(q: Query, node: NodeId, arrival: real, n: nat, avoided0: nat, hits0: seq<BlockedPoint>, avoided: nat, hits: seq<BlockedPoint>)
    requires q.speed > 0.0 && AllValid(q.slices) && n <= |Neighbours(q.g, node)|
  {
    && avoided == avoided0 + |LeftOutFrom(q, node, arrival, n)|
    && forall h :: h in hits <==> Met(q, Neighbours(q.g, node)[..n], hits0, h)
  }

  lemma CountNone(q: Query, node: NodeId, arrival: real, avoided0: nat, hits0: seq<BlockedPoint>)
    requires q.speed > 0.0 && AllValid(q.slices)
    ensures CountedFrom(q, node, arrival, 0, avoided0, hits0, avoided0, hits0)
  {
    assert LeftOutFrom(q, node, arrival, 0) == {};
  }

  lemma CountOne(q: Query, node: NodeId, arrival: real, n: nat, avoided0: nat, hits0: seq<BlockedPoint>, avoided: nat, hits: seq<BlockedPoint>)
    requires q.speed > 0.0 && AllValid(q.slices) && n < |Neighbours(q.g, node)| && arrival - q.depart <= q.maxDuration
    requires CountedFrom(q, node, arrival, n, avoided0, hits0, avoided, hits)
    ensures var e := Neighbours(q.g, node)[n];
      var report := Report(q, e.target);
      CountedFrom(q, node, arrival, n + 1, avoided0, hits0,
        avoided + (if report.None? && Enter(q, e, arrival).None? then 1 else 0),
        if report.Some? && report.value !in hits then hits + [report.value] else hits)
  {
    hide Report, Enter;
    var edges := Neighbours(q.g, node);
    var e := edges[n];
    assert edges[..n + 1] == edges[..n] + [e];
    if RiskCloses(q, node, arrival, n) {
      assert LeftOutFrom(q, node, arrival, n + 1) == LeftOutFrom(q, node, arrival, n) + {(node, n)};
    } else {
      assert LeftOutFrom(q, node, arrival, n + 1) == LeftOutFrom(q, node, arrival, n);
    }
    forall h
      ensures Met(q, edges[..n + 1], hits0, h) <==> Met(q, edges[..n], hits0, h) || Report(q, e.target) == Some(h)
    {
      if f :| f in edges[..n] && Report(q, f.target) == Some(h) {
        assert f in edges[..n + 1];
      }
    }
  }

  lemma LeftOutMore(q: Query, at: Labels, node: NodeId, arrival: real)
    requires q.speed > 0.0 && AllValid(q.slices) && node !in at
    ensures |LeftOut(q, at[node := arrival])| == |LeftOut(q, at)| + |LeftOutFrom(q, node, arrival, |Neighbours(q.g, node)|)|
  {
    hide RiskCloses, AllValid;
    var before, here := LeftOut(q, at), LeftOutFrom(q, node, arrival, |Neighbours(q.g, node)|);
    assert LeftOut(q, at[node := arrival]) == before + here;
    assert before !! here;
  }

  lemma RunsIntoMore(q: Query, at: Labels, node: NodeId, arrival: real, h: BlockedPoint)
    requires node !in at && arrival - q.depart <= q.maxDuration && q.speed > 0.0 && AllValid(q.slices)
    ensures RunsInto(q, at[node := arrival], h) <==>
      RunsInto(q, at, h) || exists e :: e in Neighbours(q.g, node) && Report(q, e.target) == Some(h)
  {
    hide Report, AllValid;
    var more := at[node := arrival];
    if v, e :| v in at && at[v] - q.depart <= q.maxDuration && e in Neighbours(q.g, v) && Report(q, e.target) == Some(h) {
      assert v in more && more[v] == at[v];
    }
    if e :| e in Neighbours(q.g, node) && Report(q, e.target) == Some(h) {
      assert node in more && more[node] == arrival;
    }
  }

  /** What was counted at one more node. */
  lemma CountedMore(q: Query, at: Labels, node: NodeId, arrival: real, avoided0: nat, hits0: seq<BlockedPoint>, avoided: nat, hits: seq<BlockedPoint>)
    requires q.speed > 0.0 && AllValid(q.slices) && node !in at && arrival - q.depart <= q.maxDuration
    requires Counted(q, at, avoided0, hits0)
    requires CountedFrom(q, node, arrival, |Neighbours(q.g, node)|, avoided0, hits0, avoided, hits)
    ensures Counted(q, at[node := arrival], avoided, hits)
  {
    hide Report, RiskCloses, LeftOut, LeftOutFrom, RunsInto, AllValid;
    var edges, more := Neighbours(q.g, node), at[node := arrival];
    assert edges[..|edges|] == edges;
    LeftOutMore(q, at, node, arrival);
    forall h
      ensures h in hits <==> RunsInto(q, more, h)
    {
      RunsIntoMore(q, at, node, arrival, h);
      assert h in hits0 <==> RunsInto(q, at, h);
      assert h in hits <==> Met(q, edges[..|edges|], hits0, h);
    }
  }

  /** Nothing is counted at a node come to too late. */
  lemma CountedLate(q: Query, at: Labels, node: NodeId, arrival: real, avoided: nat, hits: seq<BlockedPoint>)
    requires q.speed > 0.0 && AllValid(q.slices) && node !in at && arrival - q.depart > q.maxDuration
    requires Counted(q, at, avoided, hits)
    ensures Counted(q, at[node := arrival], avoided, hits)
  {
    hide Report, Enter;
    var more := at[node := arrival];
    assert LeftOut(q, more) == LeftOut(q, at);
    forall h
      ensures RunsInto(q, more, h) <==> RunsInto(q, at, h)
    {
      if v, e :| v in at && at[v] - q.depart <= q.maxDuration && e in Neighbours(q.g, v) && Report(q, e.target) == Some(h) {
        assert v in more && more[v] == at[v];
      }
    }
  }

  /** The search state while the edges of `node` are being tried; `tried` are the ones behind. */
  ghost predicate Trying(q: Query, best0: Labels, best: Labels, previous: Parents, queue: multiset<Entry>, settled: set<NodeId>, paths: Paths, node: NodeId, arrival: real, tried: seq<Edge>)
    requires q.speed > 0.0 && AllValid(q.slices)
  {
    && State(q, best, previous, queue, settled, paths) && JustSettled(best, queue, settled, node)
    && node in best && best[node] == arrival
    && Lowered(best0, best, settled)
    && forall e :: e in tried ==> EdgeRelaxed(q, best, node, e)
  }

  /** A closed edge, or one that leads nowhere sooner, changes nothing. */
  lemma TriedInVain(q: Query, best0: Labels, best: Labels, previous: Parents, queue: multiset<Entry>, settled: set<NodeId>, paths: Paths, node: NodeId, arrival: real, tried: seq<Edge>, e: Edge)
    requires Valid(q) && Trying(q, best0, best, previous, queue, settled, paths, node, arrival, tried)
    requires Enter(q, e, arrival).Some? ==> e.target in best && best[e.target] <= Enter(q, e, arrival).value
    ensures Trying(q, best0, best, previous, queue, settled, paths, node, arrival, tried + [e])
  {
    assert EdgeRelaxed(q, best, node, e);
  }

  lemma TriedWithGain(q: Query, best0: Labels, best: Labels, previous: Parents, queue: multiset<Entry>, settled: set<NodeId>, paths: Paths, node: NodeId, arrival: real, tried: seq<Edge>, e: Edge, candidate: real)
    requires Valid(q) && Trying(q, best0, best, previous, queue, settled, paths, node, arrival, tried)
    requires arrival - q.depart <= q.maxDuration && e in Neighbours(q.g, node)
    requires Enter(q, e, arrival) == Some(candidate)
    requires e.target in best ==> candidate < best[e.target]
    ensures node in paths
    ensures Trying(q, best0, best[e.target := candidate], previous[e.target := node], queue + multiset{Entry(candidate, e.target)}, settled, paths[e.target := paths[node] + [e]], node, arrival, tried + [e])
  {
    assert node in settled && node in paths;
    hide State, JustSettled, Enter, EdgeRelaxed, AllValid, Closed, NonNegative, Sane, Lowered;
    Improve(q, best, previous, queue, settled, paths, node, e, candidate);
    GainLowers(best0, best, settled, e.target, candidate);
    GainRelaxes(q, best, node, tried, e, candidate);
  }

  lemma GainLowers(best0: Labels, best: Labels, settled: set<NodeId>, target: NodeId, candidate: real)
    requires Lowered(best0, best, settled) && target !in settled
    requires target in best ==> candidate <= best[target]
    ensures Lowered(best0, best[target := candidate], settled)
  {
  }

  lemma GainRelaxes(q: Query, best: Labels, node: NodeId, tried: seq<Edge>, e: Edge, candidate: real)
    requires q.speed > 0.0 && AllValid(q.slices) && node in best && e.target != node
    requires e.target in best ==> candidate <= best[e.target]
    requires Enter(q, e, best[node]) == Some(candidate)
    requires forall f :: f in tried ==> EdgeRelaxed(q, best, node, f)
    ensures forall f :: f in tried + [e] ==> EdgeRelaxed(q, best[e.target := candidate], node, f)
  {
    hide Enter;
    forall f | f in tried + [e]
      ensures EdgeRelaxed(q, best[e.target := candidate], node, f)
    {
      assert f in tried ==> EdgeRelaxed(q, best, node, f);
    }
  }

  lemma TargetKnown(q: Query, node: NodeId, e: Edge)
    requires Valid(q) && e in Neighbours(q.g, node)
    ensures e.target in q.g
  {
  }

  /** One edge, entered now: the report that closes it, if any, and otherwise
      the arrival over it, if its risk then allows. */
  method Price(q: Query, hazard: HazardField, edge: Edge, arrival: real) returns (report: Option<BlockedPoint>, there: Option<real>)
    requires q.speed > 0.0 && AllValid(q.slices) && Describes(q, hazard)
    ensures report == Report(q, edge.target) && there == Enter(q, edge, arrival)
    ensures report.Some? ==> there.None?
  {
    hide EdgeMultiplier, RiskAt, AllValid, Travel, Cost;
    report := hazard.BlockedByFieldReport(q.dist, edge.target);
    if report.Some? {
      return report, None;
    }
    var travel := Travel(q, edge);
    var risk := hazard.Risk(edge.target, arrival + travel);
    var multiplier := EdgeMultiplier(q.policy, risk);
    if multiplier.None? {
      return None, None;
    }
    there := Some(arrival + Cost(travel, multiplier.value));
  }

  method Expand(q: Query, hazard: HazardField, node: NodeId, arrival: real, best0: Labels, previous0: Parents, queue0: multiset<Entry>, avoided0: nat, hits0: seq<BlockedPoint>, ghost settled: set<NodeId>, ghost paths0: Paths)
    returns (best: Labels, previous: Parents, queue: multiset<Entry>, avoided: nat, hits: seq<BlockedPoint>, ghost paths: Paths)
    requires Valid(q) && Describes(q, hazard)
    requires Trying(q, best0, best0, previous0, queue0, settled, paths0, node, arrival, [])
    requires arrival - q.depart <= q.maxDuration
    requires HitsOk(q, hits0)
    ensures Trying(q, best0, best, previous, queue, settled, paths, node, arrival, Neighbours(q.g, node))
    ensures HitsOk(q, hits)
    ensures avoided > 0 || hits != [] <==> avoided0 > 0 || hits0 != [] || ClosedAmong(q, Neighbours(q.g, node), arrival)
    ensures CountedFrom(q, node, arrival, |Neighbours(q.g, node)|, avoided0, hits0, avoided, hits)
  {
    hide Trying, HitsOk, ClosedAmong, CountedFrom, Enter, Closed, NonNegative, AllValid, Sane;
    CountNone(q, node, arrival, avoided0, hits0);
    best, previous, queue, avoided, hits, paths := best0, previous0, queue0, avoided0, hits0, paths0;
    var edges := Neighbours(q.g, node);
    assert edges[..0] == [];
    NoneClosed(q, arrival);
    for i := 0 to |edges|
      invariant Trying(q, best0, best, previous, queue, settled, paths, node, arrival, edges[..i])
      invariant HitsOk(q, hits)
      invariant avoided > 0 || hits != [] <==> avoided0 > 0 || hits0 != [] || ClosedAmong(q, edges[..i], arrival)
      invariant CountedFrom(q, node, arrival, i, avoided0, hits0, avoided, hits)
    {
      var edge := edges[i];
      var target := edge.target;
      OneMoreEdge(q, edges, i, arrival);
      CountOne(q, node, arrival, i, avoided0, hits0, avoided, hits);
      assert edges[..i + 1] == edges[..i] + [edge];
      var report, there := Price(q, hazard, edge, arrival);
      if report.Some? {
        TriedInVain(q, best0, best, previous, queue, settled, paths, node, arrival, edges[..i], edge);
        if report.value !in hits {
          TargetKnown(q, node, edge);
          AddHit(q, hits, report.value, target);
          hits := hits + [report.value];
        }
        continue;
      }
      if there.None? {
        TriedInVain(q, best0, best, previous, queue, settled, paths, node, arrival, edges[..i], edge);
        avoided := avoided + 1;
        continue;
      }
      var candidate := there.value;
      if target !in best || candidate < best[target] {
        TriedWithGain(q, best0, best, previous, queue, settled, paths, node, arrival, edges[..i], edge, candidate);
        paths := paths[target := paths[node] + [edge]];
        best, previous, queue := best[target := candidate], previous[target := node], queue + multiset{Entry(candidate, target)};
      } else {
        TriedInVain(q, best0, best, previous, queue, settled, paths, node, arrival, edges[..i], edge);
      }
    }
    assert edges[..|edges|] == edges;
  }

  lemma NoneClosed(q: Query, t: real)
    requires q.speed > 0.0 && AllValid(q.slices)
    ensures !ClosedAmong(q, [], t)
  {
  }
}
