/** Building the full road graph from the line features a transport mode may use. */
module Loading {
  import opened Options
  import opened Geometry
  import opened Walks
  import opened RoadGraphs
  import opened Contraction

  /** A feature of the road file; `points` are its coordinates already rounded to node ids. */
  datatype Feature = Feature(isLine: bool, tags: map<string, string>, points: seq<NodeId>, wayId: Option<string>)

  type Passable = map<string, string> -> bool

  predicate Usable(f: Feature, passable: Passable) {
    f.isLine && passable(f.tags) && |f.points| >= 2
  }

  /** Every edge is as long as the distance between its ends. */
  ghost predicate Measured(g: Adjacency, dist: Metric) {
    forall a, e :: a in g && e in g[a] ==> e.length == dist(a, e.target)
  }

  /** Two points that follow each other on the feature, among its first `n` points. */
  ghost predicate Joined(f: Feature, n: nat, a: NodeId, b: NodeId) {
    a != b && exists k :: JoinedAt(f, n, a, b, k)
  }

  ghost predicate JoinedAt(f: Feature, n: nat, a: NodeId, b: NodeId, k: int) {
    0 <= k && k + 1 < n && n <= |f.points|
    && ((f.points[k] == a && f.points[k + 1] == b) || (f.points[k] == b && f.points[k + 1] == a))
  }

  ghost predicate JoinedByOne(fs: seq<Feature>, passable: Passable, a: NodeId, b: NodeId) {
    exists f :: f in fs && f.isLine && passable(f.tags) && Joined(f, |f.points|, a, b)
  }

  lemma {:induction false} CountAppend(s: seq<Edge>, e: Edge, y: NodeId)
    ensures Count(s + [e], y) == Count(s, y) + if e.target == y then 1 else 0
  {
    if s == [] {
      assert s + [e] == [e] && [e][1..] == [];
    } else {
      CountAppend(s[1..], e, y);
      assert (s + [e])[1..] == s[1..] + [e];
    }
  }

  lemma WithSegmentCounts(g: Adjacency, a: NodeId, b: NodeId, length: real, wayId: Option<string>, tags: map<string, string>, x: NodeId, y: NodeId)
    requires a != b
    ensures Count(Neighbours(WithSegment(g, a, b, length, wayId, tags), x), y)
         == Count(Neighbours(g, x), y) + if (x == a && y == b) || (x == b && y == a) then 1 else 0
  {
    CountAppend(Neighbours(g, x), Edge(b, length, wayId, tags), y);
    CountAppend(Neighbours(g, x), Edge(a, length, wayId, tags), y);
  }

  lemma {:induction false} AbsentCountsZero(g: Adjacency, x: NodeId, y: NodeId)
    requires Closed(g) && y !in g
    ensures Count(Neighbours(g, x), y) == 0
  {
    CountPositive(Neighbours(g, x), y);
  }

  lemma MeasuredIsWellFormed(g: Adjacency, dist: Metric)
    requires Closed(g) && Measured(g, dist)
    requires forall a, e :: a in g && e in g[a] ==> e.target != a
    requires forall a, b :: Count(Neighbours(g, a), b) == Count(Neighbours(g, b), a)
    ensures WellFormed(g)
  {
    forall a, e | a in g && e in g[a]
      ensures EdgeOk(g, a, e)
    {
      assert e.target in g;
      forall f | f in Neighbours(g, e.target) && f.target == a
        ensures f.length == e.length
      {
        assert dist(e.target, a) == dist(a, e.target);
      }
    }
    forall a, b | a in g && b in g
      ensures Balanced(g, a, b)
    {
      assert Count(Neighbours(g, a), b) == Count(Neighbours(g, b), a);
    }
  }

  /** The graph stays undirected, loop-free and measured as segments are added. */
  lemma WithSegmentWellFormed(g: Adjacency, dist: Metric, a: NodeId, b: NodeId, wayId: Option<string>, tags: map<string, string>)
    requires WellFormed(g) && Measured(g, dist) && a != b
    ensures var h := WithSegment(g, a, b, dist(a, b), wayId, tags); WellFormed(h) && Measured(h, dist)
  {
    var h := WithSegment(g, a, b, dist(a, b), wayId, tags);
    WithSegmentEdges(g, a, b, dist(a, b), wayId, tags);
    WithSegmentClosed(g, a, b, dist(a, b), wayId, tags);
    assert dist(a, b) == dist(b, a);
    forall x: NodeId, e: Edge | x in h && e in h[x]
      ensures e.length == dist(x, e.target) && e.target != x
    {
      if e in Neighbours(g, x) {
        assert EdgeOk(g, x, e);
      }
    }
    forall x, y
      ensures Count(Neighbours(h, x), y) == Count(Neighbours(h, y), x)
    {
      WithSegmentCounts(g, a, b, dist(a, b), wayId, tags, x, y);
      WithSegmentCounts(g, a, b, dist(a, b), wayId, tags, y, x);
      if x in g && y in g {
        assert Balanced(g, x, y);
      } else if x !in g {
        AbsentCountsZero(g, y, x);
      } else {
        AbsentCountsZero(g, x, y);
      }
    }
    MeasuredIsWellFormed(h, dist);
  }

  lemma JoinedMore(f: Feature, n: nat, a: NodeId, b: NodeId)
    requires 1 <= n < |f.points|
    ensures Joined(f, n + 1, a, b) <==> Joined(f, n, a, b) || (a != b && JoinedAt(f, n + 1, a, b, n - 1))
  {
    var m := n + 1;
    if k :| JoinedAt(f, m, a, b, k) {
      assert k < n - 1 ==> JoinedAt(f, n, a, b, k);
    }
    if k :| JoinedAt(f, n, a, b, k) {
      assert JoinedAt(f, n + 1, a, b, k);
    }
  }

  /** How often the two points follow each other among the first `n`. */
  function Joins(f: Feature, n: nat, a: NodeId, b: NodeId): nat
    requires n <= |f.points|
  {
    if n <= 1 then 0
    else Joins(f, n - 1, a, b) + if a != b && {f.points[n - 2], f.points[n - 1]} == {a, b} then 1 else 0
  }

  /** The graph once the first `n` points of the feature have been walked. */
  function WithFeature(g: Adjacency, f: Feature, n: nat, dist: Metric): Adjacency
    requires n <= |f.points|
  {
    if n <= 1 then g
    else
      var h, a, b := WithFeature(g, f, n - 1, dist), f.points[n - 2], f.points[n - 1];
      if a == b then h else WithSegment(h, a, b, dist(a, b), f.wayId, f.tags)
  }

  lemma {:induction false} FeatureKeeps(g: Adjacency, f: Feature, n: nat, dist: Metric)
    requires WellFormed(g) && Measured(g, dist) && n <= |f.points|
    ensures WellFormed(WithFeature(g, f, n, dist)) && Measured(WithFeature(g, f, n, dist), dist)
    decreases n
  {
    if n > 1 {
      FeatureKeeps(g, f, n - 1, dist);
      if f.points[n - 2] != f.points[n - 1] {
        WithSegmentWellFormed(WithFeature(g, f, n - 1, dist), dist, f.points[n - 2], f.points[n - 1], f.wayId, f.tags);
      }
    }
  }

  /** An edge each way for each time two points follow each other. */
  lemma {:induction false} FeatureCounts(g: Adjacency, f: Feature, n: nat, dist: Metric, a: NodeId, b: NodeId)
    requires n <= |f.points|
    ensures Count(Neighbours(WithFeature(g, f, n, dist), a), b) == Count(Neighbours(g, a), b) + Joins(f, n, a, b)
    decreases n
  {
    if n > 1 {
      FeatureCounts(g, f, n - 1, dist, a, b);
      var h, x, y := WithFeature(g, f, n - 1, dist), f.points[n - 2], f.points[n - 1];
      if x != y {
        WithSegmentCounts(h, x, y, dist(x, y), f.wayId, f.tags, a, b);
      }
    }
  }

  lemma {:induction false} JoinsIffJoined(f: Feature, n: nat, a: NodeId, b: NodeId)
    requires n <= |f.points|
    ensures Joins(f, n, a, b) > 0 <==> Joined(f, n, a, b)
    decreases n
  {
    if n > 1 {
      JoinsIffJoined(f, n - 1, a, b);
      JoinedMore(f, n - 1, a, b);
      var x, y := f.points[n - 2], f.points[n - 1];
      assert a != b && {x, y} == {a, b} <==> a != b && JoinedAt(f, n, a, b, n - 2) by {
        if a != b && {x, y} == {a, b} {
          assert x in {a, b} && y in {a, b} && a in {x, y} && b in {x, y};
        }
      }
    }
  }

  // ---------- the graph of one transport mode ----------

  /** The usable features one after the other. */
  function Roads(fs: seq<Feature>, passable: Passable, dist: Metric): Adjacency {
    if fs == [] then map[]
    else
      var g, f := Roads(fs[..|fs| - 1], passable, dist), fs[|fs| - 1];
      if Usable(f, passable) then WithFeature(g, f, |f.points|, dist) else g
  }

  function UsableWays(fs: seq<Feature>, passable: Passable): nat {
    if fs == [] then 0 else UsableWays(fs[..|fs| - 1], passable) + if Usable(fs[|fs| - 1], passable) then 1 else 0
  }

  function RoadsBetween(fs: seq<Feature>, passable: Passable, a: NodeId, b: NodeId): nat {
    if fs == [] then 0
    else
      var f := fs[|fs| - 1];
      RoadsBetween(fs[..|fs| - 1], passable, a, b) + if Usable(f, passable) then Joins(f, |f.points|, a, b) else 0
  }

  /** Undirected, free of self-loops, parallel edges equally long: what the contraction needs. */
  lemma {:induction false} RoadsAreWellFormed(fs: seq<Feature>, passable: Passable, dist: Metric)
    ensures WellFormed(Roads(fs, passable, dist)) && Measured(Roads(fs, passable, dist), dist)
    decreases |fs|
  {
    if fs != [] {
      RoadsAreWellFormed(fs[..|fs| - 1], passable, dist);
      var f := fs[|fs| - 1];
      if Usable(f, passable) {
        FeatureKeeps(Roads(fs[..|fs| - 1], passable, dist), f, |f.points|, dist);
      }
    }
  }

  /** Two nodes have one edge each way for each time some usable feature has them next to each other. */
  lemma {:induction false} RoadsAreCounted(fs: seq<Feature>, passable: Passable, dist: Metric, a: NodeId, b: NodeId)
    ensures Count(Neighbours(Roads(fs, passable, dist), a), b) == RoadsBetween(fs, passable, a, b)
    decreases |fs|
  {
    if fs != [] {
      RoadsAreCounted(fs[..|fs| - 1], passable, dist, a, b);
      var f := fs[|fs| - 1];
      if Usable(f, passable) {
        FeatureCounts(Roads(fs[..|fs| - 1], passable, dist), f, |f.points|, dist, a, b);
      }
    }
  }

  lemma {:induction false} BetweenIffJoined(fs: seq<Feature>, passable: Passable, a: NodeId, b: NodeId)
    ensures RoadsBetween(fs, passable, a, b) > 0 <==> JoinedByOne(fs, passable, a, b)
    decreases |fs|
  {
    if fs != [] {
      var n := |fs| - 1;
      BetweenIffJoined(fs[..n], passable, a, b);
      OneMoreFeature(fs, n, passable, a, b);
      assert fs[..n + 1] == fs;
      if Usable(fs[n], passable) {
        JoinsIffJoined(fs[n], |fs[n].points|, a, b);
      }
    }
  }

  /** Two nodes are joined exactly when some usable feature has them next to each other. */
  lemma RoadsJoin(fs: seq<Feature>, passable: Passable, dist: Metric, a: NodeId, b: NodeId)
    ensures HasEdge(Roads(fs, passable, dist), a, b) <==> JoinedByOne(fs, passable, a, b)
  {
    RoadsAreCounted(fs, passable, dist, a, b);
    BetweenIffJoined(fs, passable, a, b);
    CountPositive(Neighbours(Roads(fs, passable, dist), a), b);
  }

  lemma OneMoreFeature(fs: seq<Feature>, i: nat, passable: Passable, a: NodeId, b: NodeId)
    requires i < |fs|
    ensures JoinedByOne(fs[..i + 1], passable, a, b) <==>
              JoinedByOne(fs[..i], passable, a, b) || (Usable(fs[i], passable) && Joined(fs[i], |fs[i].points|, a, b))
  {
    assert fs[..i + 1] == fs[..i] + [fs[i]];
    if f :| f in fs[..i] && Usable(f, passable) && Joined(f, |f.points|, a, b) {
      assert f in fs[..i + 1];
    }
  }

  /** The edge of this feature from `a`: as long as the way between its ends, with the feature's id and tags. */
  ghost predicate DrawnBy(f: Feature, n: nat, dist: Metric, a: NodeId, e: Edge) {
    Joined(f, n, a, e.target) && e.length == dist(a, e.target) && e.wayId == f.wayId && e.tags == f.tags
  }

  lemma SegmentDraws(g: Adjacency, a: NodeId, b: NodeId, length: real, wayId: Option<string>, tags: map<string, string>, x: NodeId, e: Edge)
    requires a != b
    ensures e in Neighbours(WithSegment(g, a, b, length, wayId, tags), x) <==>
      || e in Neighbours(g, x)
      || (e.length == length && e.wayId == wayId && e.tags == tags && ((x == a && e.target == b) || (x == b && e.target == a)))
  {
    WithSegmentEdges(g, a, b, length, wayId, tags);
  }

  lemma {:induction false} FeatureDraws(g: Adjacency, f: Feature, n: nat, dist: Metric, a: NodeId, e: Edge)
    requires n <= |f.points|
    ensures e in Neighbours(WithFeature(g, f, n, dist), a) <==> e in Neighbours(g, a) || DrawnBy(f, n, dist, a, e)
    decreases n
  {
    if n > 1 {
      hide WithSegment, Neighbours, Joined;
      FeatureDraws(g, f, n - 1, dist, a, e);
      JoinedMore(f, n - 1, a, e.target);
      var h, x, y := WithFeature(g, f, n - 1, dist), f.points[n - 2], f.points[n - 1];
      if x != y {
        SegmentDraws(h, x, y, dist(x, y), f.wayId, f.tags, a, e);
        assert dist(x, y) == dist(y, x);
      }
    } else {
      hide WithSegment, Neighbours;
    }
  }

  ghost predicate DrawnByOne(fs: seq<Feature>, passable: Passable, dist: Metric, a: NodeId, e: Edge) {
    exists f :: f in fs && f.isLine && passable(f.tags) && DrawnBy(f, |f.points|, dist, a, e)
  }

  /** The edges loaded are exactly those that some passable line draws, each with its way's id and tags. */
  lemma {:induction false} RoadsAreDrawn(fs: seq<Feature>, passable: Passable, dist: Metric, a: NodeId, e: Edge)
    ensures e in Neighbours(Roads(fs, passable, dist), a) <==> DrawnByOne(fs, passable, dist, a, e)
    decreases |fs|
  {
    if fs != [] {
      var n := |fs| - 1;
      var init, f := fs[..n], fs[n];
      assert fs == init + [f];
      RoadsAreDrawn(init, passable, dist, a, e);
      hide WithFeature, Neighbours, Joined;
      if Usable(f, passable) {
        FeatureDraws(Roads(init, passable, dist), f, |f.points|, dist, a, e);
      }
      ShortDrawsNothing(f, dist, a, e);
      if x :| x in init && x.isLine && passable(x.tags) && DrawnBy(x, |x.points|, dist, a, e) {
        assert x in fs;
      }
    }
  }

  lemma ShortDrawsNothing(f: Feature, dist: Metric, a: NodeId, e: Edge)
    ensures DrawnBy(f, |f.points|, dist, a, e) ==> |f.points| >= 2
  {
  }

  /** Which of the first `n` features are passable lines of two points or more. */
  ghost function Ways(fs: seq<Feature>, passable: Passable, n: nat): set<int>
    requires n <= |fs|
  {
    set i | 0 <= i < n && fs[i].isLine && passable(fs[i].tags) && |fs[i].points| >= 2
  }

  /** Those are the ways counted. */
  lemma {:induction false} WaysAreCounted(fs: seq<Feature>, passable: Passable, n: nat)
    requires n <= |fs|
    ensures UsableWays(fs[..n], passable) == |Ways(fs, passable, n)|
    decreases n
  {
    if n > 0 {
      WaysAreCounted(fs, passable, n - 1);
      assert fs[..n][..n - 1] == fs[..n - 1] && fs[..n][n - 1] == fs[n - 1];
      var before := Ways(fs, passable, n - 1);
      if Usable(fs[n - 1], passable) {
        assert Ways(fs, passable, n) == before + {n - 1};
      } else {
        assert Ways(fs, passable, n) == before;
      }
    }
  }

  // ---------- a single way ----------

  lemma FirstSegment(a: NodeId, b: NodeId, length: real, wayId: Option<string>, tags: map<string, string>)
    requires a != b
    ensures WithSegment(map[], a, b, length, wayId, tags) == map[a := [Edge(b, length, wayId, tags)], b := [Edge(a, length, wayId, tags)]]
  {
    var h := WithSegment(map[], a, b, length, wayId, tags);
    assert h.Keys == {a, b};
    assert h[a] == [Edge(b, length, wayId, tags)] && h[b] == [Edge(a, length, wayId, tags)];
  }

  /** The roads of a single way of three points, each different from the next. */
  lemma ThreePoints(f: Feature, passable: Passable, dist: Metric)
    requires |f.points| == 3 && Usable(f, passable) && f.points[0] != f.points[1] && f.points[1] != f.points[2]
    ensures var u, v, w := f.points[0], f.points[1], f.points[2];
      Roads([f], passable, dist) == WithSegment(WithSegment(map[], u, v, dist(u, v), f.wayId, f.tags), v, w, dist(v, w), f.wayId, f.tags)
  {
    hide WithSegment;
    assert [f][..0] == [];
    assert WithFeature(map[], f, 1, dist) == map[];
    assert WithFeature(map[], f, 3, dist) == WithSegment(WithFeature(map[], f, 2, dist), f.points[1], f.points[2], dist(f.points[1], f.points[2]), f.wayId, f.tags);
  }

  lemma TwoStretches(f: Feature, passable: Passable, dist: Metric, a: NodeId, x: NodeId, b: NodeId, l: real)
    requires a != x && x != b && a != b && dist(a, x) == l && dist(x, b) == l
    requires f.points == [a, x, b] && Usable(f, passable)
    ensures var w, t := f.wayId, f.tags;
      Roads([f], passable, dist) ==
        map[a := [Edge(x, l, w, t)], x := [Edge(a, l, w, t), Edge(b, l, w, t)], b := [Edge(x, l, w, t)]]
  {
    ThreePoints(f, passable, dist);
    hide Roads;
    FirstSegment(a, x, l, f.wayId, f.tags);
    var w, t := f.wayId, f.tags;
    var g1 := map[a := [Edge(x, l, w, t)], x := [Edge(a, l, w, t)]];
    assert WithSegment(g1, x, b, l, w, t) ==
           map[a := [Edge(x, l, w, t)], x := [Edge(a, l, w, t)] + [Edge(b, l, w, t)], b := [] + [Edge(x, l, w, t)]];
    assert [Edge(a, l, w, t)] + [Edge(b, l, w, t)] == [Edge(a, l, w, t), Edge(b, l, w, t)];
    assert [] + [Edge(x, l, w, t)] == [Edge(x, l, w, t)];
  }

  lemma SinglePair(f: Feature, passable: Passable, dist: Metric)
    requires |f.points| == 2 && Usable(f, passable) && f.points[0] != f.points[1]
    ensures var u, v := f.points[0], f.points[1];
      Roads([f], passable, dist) == WithSegment(map[], u, v, dist(u, v), f.wayId, f.tags)
  {
    hide WithSegment;
    assert [f][..0] == [];
    assert WithFeature(map[], f, 1, dist) == map[];
  }

  /** A segment between every two different points that follow each other on the feature. */
  method AddFeature(graph: RoadGraph, f: Feature, dist: Metric)
    requires graph.Valid() && |f.points| >= 2
    modifies graph`nodes, graph`index
    ensures graph.Valid() && graph.nodes == WithFeature(old(graph.nodes), f, |f.points|, dist)
  {
    var previous := f.points[0];
    for i := 1 to |f.points|
      invariant graph.Valid() && previous == f.points[i - 1]
      invariant graph.nodes == WithFeature(old(graph.nodes), f, i, dist)
    {
      var current := f.points[i];
      if current == previous {
        continue;
      }
      graph.AddSegment(previous, current, dist(previous, current), f.wayId, f.tags);
      previous := current;
    }
  }

  /** The full roads of one mode, and how many ways they come from. */
  method BuildRoads(fs: seq<Feature>, passable: Passable, dist: Metric, source: string) returns (graph: RoadGraph)
    ensures fresh(graph) && graph.Valid() && graph.source == source
    ensures graph.nodes == Roads(fs, passable, dist) && graph.wayCount == UsableWays(fs, passable)
  {
    graph := new RoadGraph(source, 0);
    for i := 0 to |fs|
      invariant fresh(graph) && graph.Valid() && graph.source == source
      invariant graph.nodes == Roads(fs[..i], passable, dist) && graph.wayCount == UsableWays(fs[..i], passable)
    {
      assert fs[..i + 1][..i] == fs[..i];
      if !Usable(fs[i], passable) {
        continue;
      }
      AddFeature(graph, fs[i], dist);
      graph.wayCount := graph.wayCount + 1;
    }
    assert fs[..|fs|] == fs;
  }

  /** Loading a mode's graph: the full roads, then their contraction. */
  method LoadRoadGraph(fs: seq<Feature>, passable: Passable, dist: Metric, source: string) returns (full: RoadGraph, graph: RoadGraph)
    ensures fresh(full) && fresh(graph) && graph.Valid()
    ensures full.nodes == Roads(fs, passable, dist) && WellFormed(full.nodes) && Measured(full.nodes, dist)
    ensures graph.source == source && graph.wayCount == UsableWays(fs, passable)
    ensures IsContraction(full.nodes, graph.nodes, MIN_NODE_SPACING_M)
  {
    full := BuildRoads(fs, passable, dist, source);
    RoadsAreWellFormed(fs, passable, dist);
    graph := Contract(full, MIN_NODE_SPACING_M);
  }
}
