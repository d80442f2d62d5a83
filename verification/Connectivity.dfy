/** What "not connected" tells about the roads, and when it misleads. */
module Connectivity {
  import opened Options
  import opened Geometry
  import opened Walks
  import opened Hazard
  import opened Routes
  import opened Search
  import opened RouteLaws
  import opened Junctions
  import opened Chains
  import opened Contraction
  import opened Loading
  import opened ShapePoints

  /** A node the search reached too late to go on from, though the goal lies beyond it. */
  ghost predicate CutOffAt(q: Query, v: NodeId, t: real)
    requires Valid(q)
  {
    EarliestAt(q, v, t) && t - q.depart > q.maxDuration && Connected(q.g, v, q.goal)
  }

  /** An admissible path is a walk. */
  lemma {:induction false} PathIsWalk(q: Query, p: seq<Edge>)
    requires Valid(q) && Admissible(q, p)
    ensures IsWalk(q.g, q.start, p, End(q, p))
    decreases |p|
  {
    if p != [] {
      PathIsWalk(q, Init(p));
      StepWalk(q.g, End(q, Init(p)), Last(p));
      WalkConcat(q.g, q.start, Init(p), End(q, Init(p)), [Last(p)], End(q, p));
      assert Init(p) + [Last(p)] == p;
    }
  }

  /** Following any road from a reached node ends at the goal or at the budget. */
  lemma {:induction false} FollowRoad(q: Query, v: NodeId, t: real, w: seq<Edge>)
    requires Valid(q) && !Obstructed(q) && !Reached(q, q.goal)
    requires forall x :: Reached(q, x) ==> exists s :: EarliestAt(q, x, s)
    requires EarliestAt(q, v, t) && IsWalk(q.g, v, w, q.goal)
    ensures exists x, s :: CutOffAt(q, x, s)
    decreases |w|
  {
    var p :| PathTo(q, p, v, t);
    if t - q.depart > q.maxDuration {
      assert CutOffAt(q, v, t);
    } else {
      assert w != [];
      var e := w[0];
      assert !ClosedEdge(q, v, t, e);
      ExtendPath(q, p, e);
      assert Reached(q, e.target);
      var s :| EarliestAt(q, e.target, s);
      FollowRoad(q, e.target, s, w[1..]);
    }
  }

  lemma NothingInTheWay(q: Query, r: RouteResult)
    requires Valid(q) && Outcome(q, r) && r.reason == Some(NotConnected)
    ensures !Obstructed(q) && !Reached(q, q.goal)
    ensures forall v :: Reached(q, v) ==> exists t :: EarliestAt(q, v, t)
  {
    hide HitsOk, Obstructed, Reached, EarliestAt, RiskAt, EdgeMultiplier, Report, ReachedNodes, FailedCounts, FoundCounts, BestRoute;
  }

  /** After the answer "not connected" the roads do lead to the goal exactly when
      the time budget ran out at some reached node from which they go on to it. */
  lemma NotConnectedExactly(q: Query, r: RouteResult)
    requires Valid(q) && Outcome(q, r) && r.reason == Some(NotConnected)
    ensures Connected(q.g, q.start, q.goal) <==> exists v, t :: CutOffAt(q, v, t)
  {
    NothingInTheWay(q, r);
    hide Outcome, Obstructed, Enter, AllValid, Closed, NonNegative, Sane;
    if w :| IsWalk(q.g, q.start, w, q.goal) {
      assert PathTo(q, [], q.start, q.depart);
      assert Reached(q, q.start);
      var t :| EarliestAt(q, q.start, t);
      FollowRoad(q, q.start, t, w);
    }
    if v, t :| CutOffAt(q, v, t) {
      var p :| PathTo(q, p, v, t);
      PathIsWalk(q, p);
      var w :| IsWalk(q.g, v, w, q.goal);
      WalkConcat(q.g, q.start, p, v, w, q.goal);
    }
  }

  /** A calm query: nothing predicted, nothing reported, and a policy that lets zero risk pass. */
  ghost predicate Calm(q: Query) {
    q.slices == [] && q.blocked == [] && 0.0 <= q.policy.avoidThreshold && 0.0 < q.policy.blockThreshold
  }

  lemma CalmEnter(q: Query, e: Edge, t: real)
    requires Valid(q) && Calm(q)
    ensures Enter(q, e, t) == Some(t + Drive(e.length, q.speed))
  {
    assert Cost(Travel(q, e), 1.0) == Travel(q, e);
  }

  lemma CalmStart(q: Query)
    requires Valid(q) && Calm(q)
    ensures StartOpen(q)
  {
  }

  // ---------- an answer that misleads ----------

  /** With 200 m on either side the middle is kept: a chain is cut there. */
  lemma MiddleStays(g: Adjacency, c: Adjacency, x: NodeId)
    requires WellFormed(g) && IsContraction(g, c, MIN_NODE_SPACING_M) && IsRoad(g, x)
    requires AllLong(g, 200.0)
    ensures x in c
  {
    hide *;
    SpacingIsShort();
    if x !in c {
      var a, p, b, k, d := SnapError(g, c, MIN_NODE_SPACING_M, x);
      var i := Position(p, a, x);
      ChainIsOne(g, c, MIN_NODE_SPACING_M, a, p, b);
      SplitWalk(g, a, p, b, |p| - 1);
      LongFirst(g, a, p[..|p| - 1], NodeAt(a, p, |p| - 1));
    }
  }

  lemma SpacingIsShort()
    ensures MIN_NODE_SPACING_M < 200.0
  {
  }

  lemma LongFirst(g: Adjacency, a: NodeId, p: seq<Edge>, b: NodeId)
    requires WellFormed(g) && IsWalk(g, a, p, b) && p != []
    requires AllLong(g, 200.0)
    ensures Length(p) >= 200.0
  {
    NeverNegative(g, p[0].target, p[1..], b);
  }

  /** Three places in a row, 200 m apart, as loaded: all kept, joined in the same order. */
  ghost predicate RowOf(k: Adjacency, a: NodeId, b: NodeId, c: NodeId) {
    && a != b && b != c && a != c && k.Keys == {a, b, c} && Connected(k, a, c)
    && AllLong(k, 200.0) && Closed(k) && forall e :: e in k[a] ==> e.target == b
  }

  lemma LoadedRow(f: Feature, passable: Passable, dist: Metric, a: NodeId, b: NodeId, c: NodeId, k: Adjacency)
    requires a != b && b != c && a != c && dist(a, b) == 200.0 && dist(b, c) == 200.0
    requires f.points == [a, b, c] && Usable(f, passable)
    requires IsContraction(Roads([f], passable, dist), k, MIN_NODE_SPACING_M)
    ensures RowOf(k, a, b, c)
  {
    hide *;
    RoadsAreWellFormed([f], passable, dist);
    TwoStretchesShape(f, passable, dist, a, b, c, 200.0);
    RowKept(Roads([f], passable, dist), a, b, c, k);
  }

  lemma RowKept(g: Adjacency, a: NodeId, b: NodeId, c: NodeId, k: Adjacency)
    requires WellFormed(g) && IsContraction(g, k, MIN_NODE_SPACING_M) && a != b && b != c && a != c
    requires g.Keys == {a, b, c} && |g[a]| == 1 && |g[c]| == 1 && |g[b]| == 2
    requires g[a][0].target == b && g[b][0].target == a && g[b][1].target == c
    requires AllLong(g, 200.0)
    ensures RowOf(k, a, b, c)
  {
    hide *;
    MiddleIsRoad(g, a, b, c);
    OddDegreeStays(g, k, MIN_NODE_SPACING_M, a);
    OddDegreeStays(g, k, MIN_NODE_SPACING_M, c);
    MiddleStays(g, k, b);
    RowConnected(g, a, b, c, k);
    assert k.Keys == g.Keys;
    RowEdges(g, a, b, k);
    IsRow(k, a, b, c);
  }

  lemma MiddleIsRoad(g: Adjacency, a: NodeId, b: NodeId, c: NodeId)
    requires b in g && |g[b]| == 2 && g[b][0].target == a && g[b][1].target == c && a != c
    ensures IsRoad(g, b)
  {
  }

  lemma IsRow(k: Adjacency, a: NodeId, b: NodeId, c: NodeId)
    requires a != b && b != c && a != c && k.Keys == {a, b, c} && Connected(k, a, c)
    requires AllLong(k, 200.0) && Closed(k) && forall e :: e in k[a] ==> e.target == b
    ensures RowOf(k, a, b, c)
  {
  }

  lemma RowEdges(g: Adjacency, a: NodeId, b: NodeId, k: Adjacency)
    requires WellFormed(g) && IsContraction(g, k, MIN_NODE_SPACING_M) && k.Keys == g.Keys && AllLong(g, 200.0)
    requires a in g && |g[a]| == 1 && g[a][0].target == b
    ensures AllLong(k, 200.0) && Closed(k) && forall e :: e in k[a] ==> e.target == b
  {
    hide IsContraction, WellFormed;
    forall n, e | n in k && e in k[n]
      ensures e.length == 200.0 && e.target in k && (n == a ==> e.target == b)
    {
      KnownEdge(g, n, k, e);
    }
  }

  lemma RowConnected(g: Adjacency, a: NodeId, b: NodeId, c: NodeId, k: Adjacency)
    requires IsContraction(g, k, MIN_NODE_SPACING_M) && a in k && c in k
    requires a in g && b in g && |g[a]| > 0 && |g[b]| > 1 && g[a][0].target == b && g[b][1].target == c
    ensures Connected(k, a, c)
  {
    hide IsContraction, Length;
    StepWalk(g, a, g[a][0]);
    StepWalk(g, b, g[b][1]);
    hide IsWalk;
    WalkConcat(g, a, [g[a][0]], b, [g[b][1]], c);
    StillWithin(g, k, MIN_NODE_SPACING_M, a, [g[a][0]] + [g[b][1]], c);
  }

  lemma KnownEdge(g: Adjacency, n: NodeId, k: Adjacency, e: Edge)
    requires WellFormed(g) && IsContraction(g, k, MIN_NODE_SPACING_M) && k.Keys == g.Keys && n in k && e in k[n]
    ensures e.target in g && exists f :: f in g[n] && f.target == e.target && f.length == e.length
  {
    hide IsContraction;
    var f := NothingRemoved(g, k, MIN_NODE_SPACING_M, n, e);
  }

  /** The answer "not connected" does not mean that no road leads there: 400 m of
      loaded road, a metre a second, and 100 seconds to spend. */
  lemma BudgetReadsAsDisconnected(f: Feature, passable: Passable, dist: Metric, a: NodeId, b: NodeId, c: NodeId, k: Adjacency) returns (q: Query)
    requires a != b && b != c && a != c && dist(a, b) == 200.0 && dist(b, c) == 200.0
    requires f.points == [a, b, c] && Usable(f, passable)
    requires IsContraction(Roads([f], passable, dist), k, MIN_NODE_SPACING_M)
    ensures q.g == k && q.dist == dist && Valid(q) && Connected(q.g, q.start, q.goal)
    ensures forall r :: Outcome(q, r) ==> r.reason == Some(NotConnected)
  {
    LoadedRow(f, passable, dist, a, b, c, k);
    q := Query(k, dist, 1.0, [], [], DEFAULT_POLICY, a, c, 0.0, 100.0);
    hide Roads, IsContraction;
    NotInTime(q, b);
  }

  lemma NotInTime(q: Query, b: NodeId)
    requires Valid(q) && Calm(q) && RowOf(q.g, q.start, b, q.goal)
    requires q.speed == 1.0 && q.depart == 0.0 && q.maxDuration == 100.0
    ensures forall r :: Outcome(q, r) ==> r.reason == Some(NotConnected)
  {
    CalmStart(q);
    forall p | Admissible(q, p)
      ensures End(q, p) != q.goal
    {
      ShortOfTheGoal(q, b, p);
    }
    forall v, t, x
      ensures !ClosedEdge(q, v, t, x)
    {
      CalmEnter(q, x, t);
    }
  }

  lemma {:induction false} ShortOfTheGoal(q: Query, b: NodeId, p: seq<Edge>)
    requires Valid(q) && Calm(q) && RowOf(q.g, q.start, b, q.goal)
    requires q.speed == 1.0 && q.depart == 0.0 && q.maxDuration == 100.0 && Admissible(q, p)
    ensures (End(q, p) == q.start && Arrival(q, p) >= 0.0) || (End(q, p) == b && Arrival(q, p) >= 200.0)
    decreases |p|
  {
    if p != [] {
      ShortOfTheGoal(q, b, Init(p));
      CalmEnter(q, Last(p), Arrival(q, Init(p)));
    }
  }
}
