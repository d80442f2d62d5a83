/** The label-setting search: queue, labels and predecessors, and why its first
    arrival at the goal is the earliest of all. */
module Search {
  import opened Options
  import opened Geometry
  import opened Walks
  import opened Hazard
  import opened Routes

  /** A queue entry; entries are ordered by time, then latitude, then longitude. */
  datatype Entry = Entry(at: real, node: NodeId)

  predicate LessOrEqual(a: Entry, b: Entry) {
    a.at < b.at
    || (a.at == b.at && (a.node.lat < b.node.lat || (a.node.lat == b.node.lat && a.node.lon <= b.node.lon)))
  }

  predicate IsLeast(x: Entry, queue: multiset<Entry>) {
    x in queue && forall y :: y in queue ==> LessOrEqual(x, y)
  }

  lemma Lesser(x: Entry, z: Entry, rest: multiset<Entry>)
    requires IsLeast(z, rest)
    ensures LessOrEqual(x, z) ==> forall y :: y in rest ==> LessOrEqual(x, y)
    ensures !LessOrEqual(x, z) ==> LessOrEqual(z, x)
  {
    forall y | y in rest && LessOrEqual(x, z)
      ensures LessOrEqual(x, y)
    {
      assert LessOrEqual(z, y);
    }
  }

  lemma {:induction false} LeastExists(queue: multiset<Entry>)
    requires queue != multiset{}
    ensures exists x :: IsLeast(x, queue)
    decreases |queue|
  {
    var x :| x in queue;
    var rest := queue - multiset{x};
    assert forall y :: y in queue && y != x ==> y in rest;
    if rest == multiset{} {
      assert IsLeast(x, queue);
    } else {
      LeastExists(rest);
      var z :| IsLeast(z, rest);
      Lesser(x, z, rest);
      assert IsLeast(if LessOrEqual(x, z) then x else z, queue);
    }
  }

  /** The heap's pop: the least entry leaves the queue. */
  method PopLeast(queue: multiset<Entry>) returns (least: Entry, rest: multiset<Entry>)
    requires queue != multiset{}
    ensures IsLeast(least, queue) && rest == queue - multiset{least}
  {
    LeastExists(queue);
    least :| IsLeast(least, queue);
    rest := queue - multiset{least};
  }

  // ---------- the invariant ----------

  type Labels = map<NodeId, real>
  type Parents = map<NodeId, NodeId>
  type Paths = map<NodeId, seq<Edge>>

  /** Each label is the arrival of an admissible path to its node. */
  ghost predicate Labelled(q: Query, best: Labels, paths: Paths)
    requires q.speed > 0.0 && AllValid(q.slices)
  {
    && best.Keys == paths.Keys <= q.g.Keys
    && q.start in best && best[q.start] == q.depart && paths[q.start] == []
    && forall v :: v in best ==> PathTo(q, paths[v], v, best[v])
  }

  ghost predicate ParentOk(previous: Parents, settled: set<NodeId>, paths: Paths, v: NodeId)
    requires v in previous
  {
    previous[v] in settled && previous[v] in paths && v in paths && paths[v] != [] && Init(paths[v]) == paths[previous[v]]
  }

  /** Every label but the start's was set from a settled node, over the last edge of its path. */
  ghost predicate Tree(q: Query, best: Labels, previous: Parents, settled: set<NodeId>, paths: Paths) {
    && previous.Keys == best.Keys - {q.start} && settled <= best.Keys
    && forall v :: v in previous ==> ParentOk(previous, settled, paths, v)
  }

  /** Each unsettled label is queued exactly once, every other entry is stale,
      and nothing queued is earlier than what is settled. */
  ghost predicate Queued(best: Labels, queue: multiset<Entry>, settled: set<NodeId>) {
    && settled <= best.Keys
    && (forall x :: x in queue ==> x.node in best && best[x.node] <= x.at)
    && (forall v :: v in best ==> queue[Entry(best[v], v)] == if v in settled then 0 else 1)
    && (forall s, x :: s in settled && x in queue ==> best[s] <= x.at)
  }

  ghost predicate EdgeRelaxed(q: Query, best: Labels, u: NodeId, e: Edge)
    requires u in best && q.speed > 0.0 && AllValid(q.slices)
  {
    best[u] - q.depart <= q.maxDuration && Enter(q, e, best[u]).Some? ==>
      e.target in best && best[e.target] <= Enter(q, e, best[u]).value
  }

  ghost predicate Relaxed(q: Query, best: Labels, done: set<NodeId>)
    requires q.speed > 0.0 && AllValid(q.slices)
  {
    done <= best.Keys && forall u, e :: u in done && e in Neighbours(q.g, u) ==> EdgeRelaxed(q, best, u, e)
  }

  ghost predicate ClosedFrom(q: Query, best: Labels, u: NodeId, e: Edge)
    requires q.speed > 0.0 && AllValid(q.slices)
  {
    u in best && best[u] - q.depart <= q.maxDuration && e in Neighbours(q.g, u) && Enter(q, e, best[u]).None?
  }

  /** The counters are non-zero exactly when a closed edge was met. */
  ghost predicate CountersOk(q: Query, best: Labels, done: set<NodeId>, avoided: nat, hits: seq<BlockedPoint>)
    requires q.speed > 0.0 && AllValid(q.slices)
  {
    && HitsOk(q, hits)
    && (avoided > 0 || hits != [] <==> exists u, e :: u in done && ClosedFrom(q, best, u, e))
  }

  /** The labels of some nodes. */
  function Only(best: Labels, done: set<NodeId>): Labels {
    map v | v in best && v in done :: best[v]
  }

  /** The counters say what was met at the nodes done with. */
  ghost predicate Counted(q: Query, at: Labels, avoided: nat, hits: seq<BlockedPoint>)
    requires q.speed > 0.0 && AllValid(q.slices)
  {
    avoided == |LeftOut(q, at)| && forall h :: h in hits <==> RunsInto(q, at, h)
  }

  ghost predicate State(q: Query, best: Labels, previous: Parents, queue: multiset<Entry>, settled: set<NodeId>, paths: Paths)
    requires q.speed > 0.0 && AllValid(q.slices)
  {
    Labelled(q, best, paths) && Tree(q, best, previous, settled, paths) && Queued(best, queue, settled)
  }

  // ---------- improving one label ----------

  ghost predicate JustSettled(best: Labels, queue: multiset<Entry>, settled: set<NodeId>, node: NodeId) {
    && node in settled && settled <= best.Keys
    && (forall x :: x in queue ==> best[node] <= x.at)
    && (forall s :: s in settled ==> best[s] <= best[node])
  }

  /** Relaxing one edge out of the node just settled. */
  lemma Improve(q: Query, best: Labels, previous: Parents, queue: multiset<Entry>, settled: set<NodeId>, paths: Paths, node: NodeId, e: Edge, candidate: real)
    requires Valid(q) && State(q, best, previous, queue, settled, paths) && JustSettled(best, queue, settled, node)
    requires best[node] - q.depart <= q.maxDuration && e in Neighbours(q.g, node)
    requires Enter(q, e, best[node]) == Some(candidate)
    requires e.target in best ==> candidate < best[e.target]
    ensures candidate >= best[node] && e.target !in settled && e.target != q.start
    ensures State(q, best[e.target := candidate], previous[e.target := node], queue + multiset{Entry(candidate, e.target)}, settled, paths[e.target := paths[node] + [e]])
    ensures JustSettled(best[e.target := candidate], queue + multiset{Entry(candidate, e.target)}, settled, node)
  {
    var v := e.target;
    ImprovePath(q, best, paths, node, e, candidate);
    ImproveTree(q, best, previous, settled, paths, node, e, candidate);
    ImproveQueue(best, queue, settled, node, v, candidate);
  }

  lemma ImprovePath(q: Query, best: Labels, paths: Paths, node: NodeId, e: Edge, candidate: real)
    requires Valid(q) && Labelled(q, best, paths) && node in best
    requires best[node] - q.depart <= q.maxDuration && e in Neighbours(q.g, node)
    requires Enter(q, e, best[node]) == Some(candidate)
    requires e.target in best ==> candidate < best[e.target]
    ensures candidate >= best[node] && e.target != q.start
    ensures Labelled(q, best[e.target := candidate], paths[e.target := paths[node] + [e]])
  {
    var p := paths[node];
    assert PathTo(q, p, node, best[node]);
    ExtendPath(q, p, e);
    ArrivalGrows(q, p);
    ArrivalGrows(q, p + [e]);
    assert Init(p + [e]) == p;
    var best', paths' := best[e.target := candidate], paths[e.target := p + [e]];
    forall v | v in best'
      ensures PathTo(q, paths'[v], v, best'[v])
    {
      assert v != e.target ==> PathTo(q, paths[v], v, best[v]);
    }
  }

  lemma ImproveTree(q: Query, best: Labels, previous: Parents, settled: set<NodeId>, paths: Paths, node: NodeId, e: Edge, candidate: real)
    requires Tree(q, best, previous, settled, paths) && best.Keys == paths.Keys
    requires node in settled && e.target !in settled && e.target != q.start
    ensures Tree(q, best[e.target := candidate], previous[e.target := node], settled, paths[e.target := paths[node] + [e]])
  {
    var v := e.target;
    var p := paths[node];
    assert Init(p + [e]) == p;
    var previous' := previous[v := node];
    forall w | w in previous'
      ensures ParentOk(previous', settled, paths[v := p + [e]], w)
    {
      if w != v {
        assert ParentOk(previous, settled, paths, w);
      }
    }
  }

  lemma ImproveQueue(best: Labels, queue: multiset<Entry>, settled: set<NodeId>, node: NodeId, v: NodeId, candidate: real)
    requires Queued(best, queue, settled) && JustSettled(best, queue, settled, node)
    requires v !in settled && best[node] <= candidate && (v in best ==> candidate < best[v])
    ensures Queued(best[v := candidate], queue + multiset{Entry(candidate, v)}, settled)
    ensures JustSettled(best[v := candidate], queue + multiset{Entry(candidate, v)}, settled, node)
  {
    var best', queue' := best[v := candidate], queue + multiset{Entry(candidate, v)};
    assert Entry(candidate, v) !in queue;
    forall w | w in best'
      ensures queue'[Entry(best'[w], w)] == if w in settled then 0 else 1
    {
      if w != v {
        assert queue[Entry(best[w], w)] == if w in settled then 0 else 1;
      }
    }
    forall x | x in queue'
      ensures x.node in best' && best'[x.node] <= x.at
      ensures forall s :: s in settled ==> best'[s] <= x.at
    {
      assert x in queue || x == Entry(candidate, v);
    }
  }

  // ---------- settling ----------

  /** Popping a current label settles its node. */
  lemma Settle(q: Query, best: Labels, previous: Parents, queue: multiset<Entry>, settled: set<NodeId>, paths: Paths, least: Entry)
    requires Valid(q) && State(q, best, previous, queue, settled, paths)
    requires IsLeast(least, queue) && least.at <= best[least.node]
    ensures least.at == best[least.node] && least.node !in settled
    ensures State(q, best, previous, queue - multiset{least}, settled + {least.node}, paths)
    ensures JustSettled(best, queue - multiset{least}, settled + {least.node}, least.node)
  {
    var rest, more := queue - multiset{least}, settled + {least.node};
    assert queue[Entry(best[least.node], least.node)] == if least.node in settled then 0 else 1;
    assert Queued(best, rest, more) by {
      forall v | v in best
        ensures rest[Entry(best[v], v)] == if v in more then 0 else 1
      {
        assert queue[Entry(best[v], v)] == if v in settled then 0 else 1;
      }
    }
    forall v | v in previous
      ensures ParentOk(previous, more, paths, v)
    {
      assert ParentOk(previous, settled, paths, v);
    }
  }

  /** Dropping a stale entry changes nothing. */
  lemma DropStale(best: Labels, queue: multiset<Entry>, settled: set<NodeId>, stale: Entry)
    requires Queued(best, queue, settled) && stale in queue && best[stale.node] < stale.at
    ensures Queued(best, queue - multiset{stale}, settled)
  {
    forall v | v in best
      ensures (queue - multiset{stale})[Entry(best[v], v)] == if v in settled then 0 else 1
    {
      assert queue[Entry(best[v], v)] == if v in settled then 0 else 1;
    }
  }

  // ---------- why the first arrival is the earliest ----------

  ghost predicate Beyond(bound: Option<real>, t: real) {
    bound.Some? && bound.value <= t
  }

  /** An admissible path either has run inside the settled nodes, each labelled
      at least as early, or is no earlier than everything still queued. */
  lemma {:induction false} Frontier(q: Query, best: Labels, queue: multiset<Entry>, settled: set<NodeId>, bound: Option<real>, p: seq<Edge>)
    requires Valid(q) && Queued(best, queue, settled) && Relaxed(q, best, settled)
    requires q.start in best && best[q.start] <= q.depart
    requires forall v :: v in best && v !in settled ==> Beyond(bound, best[v])
    requires Admissible(q, p)
    ensures (End(q, p) in settled && best[End(q, p)] <= Arrival(q, p)) || Beyond(bound, Arrival(q, p))
    decreases |p|
  {
    if p != [] {
      Frontier(q, best, queue, settled, bound, Init(p));
      ArrivalGrows(q, p);
      var u, e, t := End(q, Init(p)), Last(p), Arrival(q, Init(p));
      if u in settled && best[u] <= t {
        assert e.length >= 0.0;
        EnterMonotone(q, e, e, best[u], t);
        assert EdgeRelaxed(q, best, u, e);
      }
    }
  }
}
