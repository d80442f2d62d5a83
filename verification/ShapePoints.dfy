/** How far a removed shape point lies from the nodes that were kept. */
module ShapePoints {
  import opened Options
  import opened Geometry
  import opened Walks
  import opened RoadGraphs
  import opened Junctions
  import opened Chains
  import opened ChainSteps
  import opened Contraction
  import opened Loading

  ghost function Upto(p: seq<Edge>, i: int): real
    requires 0 <= i <= |p|
  {
    Length(p[..i])
  }

  /** How far the `i`-th node of a chain is from the nearer of its ends, along it. */
  ghost function EndDistance(p: seq<Edge>, i: int): real
    requires 0 <= i <= |p|
  {
    if Upto(p, i) <= Length(p) - Upto(p, i) then Upto(p, i) else Length(p) - Upto(p, i)
  }

  // ---------- along a walk ----------

  lemma {:induction false} SplitWalk(g: Adjacency, a: NodeId, p: seq<Edge>, b: NodeId, i: nat)
    requires IsWalk(g, a, p, b) && i <= |p|
    ensures IsWalk(g, a, p[..i], NodeAt(a, p, i)) && IsWalk(g, NodeAt(a, p, i), p[i..], b)
    ensures Length(p) == Upto(p, i) + Length(p[i..])
    decreases i
  {
    if i == 0 {
      assert p[..0] == [] && p[0..] == p;
    } else {
      SplitWalk(g, p[0].target, p[1..], b, i - 1);
      assert p[..i][1..] == p[1..][..i - 1] && p[i..] == p[1..][i - 1..];
      assert NodeAt(a, p, i) == NodeAt(p[0].target, p[1..], i - 1);
    }
  }

  /** One edge further along a walk. */
  lemma NextAlong(g: Adjacency, a: NodeId, p: seq<Edge>, b: NodeId, i: nat)
    requires IsWalk(g, a, p, b) && i < |p|
    ensures p[i] in Neighbours(g, NodeAt(a, p, i)) && NodeAt(a, p, i + 1) == p[i].target
    ensures Upto(p, i + 1) == Upto(p, i) + p[i].length
  {
    SplitWalk(g, a, p, b, i);
    SplitWalk(g, a, p, b, i + 1);
    assert p[i..][0] == p[i] && p[i..][1..] == p[i + 1..];
  }

  // ---------- inside a chain ----------

  /** A chain of this contraction. */
  ghost predicate ChainOf(g: Adjacency, c: Adjacency, spacing: real, a: NodeId, p: seq<Edge>, b: NodeId) {
    Merged(g, c, g.Keys - c.Keys, spacing, a, p, b)
  }

  lemma ChainEnds(g: Adjacency, c: Adjacency, spacing: real, a: NodeId, p: seq<Edge>, b: NodeId)
    requires IsContraction(g, c, spacing) && ChainOf(g, c, spacing, a, p, b)
    ensures a in c && b in c && NodeAt(a, p, |p|) == b
  {
    var e :| e in Neighbours(c, a) && e.target == b && e.length == Length(p);
    assert SegmentOk(g, c, g.Keys - c.Keys, spacing, a, e);
    WalkEnds(g, a, p, b);
  }

  lemma InnerAt(p: seq<Edge>, a: NodeId, i: nat)
    requires 0 < i < |p|
    ensures NodeAt(a, p, i) in Inner(p)
  {
    assert p[..|p| - 1][i - 1] == p[i - 1];
  }

  lemma InnerIsRemoved(g: Adjacency, c: Adjacency, spacing: real, a: NodeId, p: seq<Edge>, b: NodeId, i: nat)
    requires IsContraction(g, c, spacing) && ChainOf(g, c, spacing, a, p, b) && 0 < i < |p|
    ensures var x := NodeAt(a, p, i); x in g && |g[x]| == 2 && x !in c
  {
    InnerAt(p, a, i);
    NextAlong(g, a, p, b, i);
    assert Fate(g, c, spacing, NodeAt(a, p, i));
  }

  /** A node of degree 2 inside a walk that does not turn back has no edges but the walk's. */
  lemma AlongOnly(g: Adjacency, a: NodeId, p: seq<Edge>, b: NodeId, i: nat, f: Edge)
    requires WellFormed(g) && IsWalk(g, a, p, b) && NoTurn(a, p) && 0 < i < |p|
    requires f in Neighbours(g, NodeAt(a, p, i)) && |Neighbours(g, NodeAt(a, p, i))| == 2
    ensures f.length >= 0.0
    ensures || (f.target == NodeAt(a, p, i + 1) && f.length == p[i].length)
            || (f.target == NodeAt(a, p, i - 1) && f.length == p[i - 1].length)
  {
    var x, before, after := NodeAt(a, p, i), NodeAt(a, p, i - 1), NodeAt(a, p, i + 1);
    NextAlong(g, a, p, b, i);
    NextAlong(g, a, p, b, i - 1);
    assert NodeAt(a, p, i - 1 + 2) != before;
    hide NodeAt, NoTurn, IsWalk, WellFormed, HasEdge, Upto;
    EdgeLengthUnique(g, x, f);
    EdgeLengthUnique(g, x, p[i]);
    EdgeLengthUnique(g, before, p[i - 1]);
    TwoEdges(g, x, before, after);
  }

  /** An inner node has been removed, and its two edges lead along the chain. */
  lemma InnerNode(g: Adjacency, c: Adjacency, spacing: real, a: NodeId, p: seq<Edge>, b: NodeId, i: nat, f: Edge)
    requires WellFormed(g) && IsContraction(g, c, spacing) && ChainOf(g, c, spacing, a, p, b) && 0 < i < |p|
    requires f in Neighbours(g, NodeAt(a, p, i))
    ensures NodeAt(a, p, i) in g && NodeAt(a, p, i) !in c && f.length >= 0.0
    ensures || (f.target == NodeAt(a, p, i + 1) && f.length == p[i].length)
            || (f.target == NodeAt(a, p, i - 1) && f.length == p[i - 1].length)
  {
    hide WellFormed, IsContraction, IsWalk, NodeAt, Length, NoTurn, Inner;
    InnerIsRemoved(g, c, spacing, a, p, b, i);
    AlongOnly(g, a, p, b, i, f);
  }

  /** Whoever walks from a node of the chain to a kept node walks to one of the
      chain's ends first. */
  lemma {:induction false} WayOut(g: Adjacency, c: Adjacency, spacing: real, a: NodeId, p: seq<Edge>, b: NodeId, i: nat, q: seq<Edge>, v: NodeId)
    requires WellFormed(g) && IsContraction(g, c, spacing) && ChainOf(g, c, spacing, a, p, b) && i <= |p|
    requires IsWalk(g, NodeAt(a, p, i), q, v) && v in c
    ensures Length(q) >= EndDistance(p, i)
    decreases |q|
  {
    hide IsContraction, WellFormed, ChainOf, Length, NodeAt;
    if i == 0 || i == |p| {
      ZeroAtEnds(p);
      NeverNegative(g, NodeAt(a, p, i), q, v);
    } else {
      ChainIsOne(g, c, spacing, a, p, b);
      NextAlong(g, a, p, b, i);
      NextAlong(g, a, p, b, i - 1);
      if q == [] {
        InnerNode(g, c, spacing, a, p, b, i, p[i]);
      } else {
        InnerNode(g, c, spacing, a, p, b, i, q[0]);
        FirstStep(q);
        if q[0].target == NodeAt(a, p, i + 1) && q[0].length == p[i].length {
          WayOut(g, c, spacing, a, p, b, i + 1, q[1..], v);
        } else {
          WayOut(g, c, spacing, a, p, b, i - 1, q[1..], v);
        }
      }
    }
  }

  lemma ZeroAtEnds(p: seq<Edge>)
    ensures EndDistance(p, 0) <= 0.0 && EndDistance(p, |p|) <= 0.0
  {
    assert p[..0] == [] && p[..|p|] == p;
  }

  lemma FirstStep(q: seq<Edge>)
    requires q != []
    ensures Length(q) == q[0].length + Length(q[1..])
  {
  }

  lemma ChainIsOne(g: Adjacency, c: Adjacency, spacing: real, a: NodeId, p: seq<Edge>, b: NodeId)
    requires ChainOf(g, c, spacing, a, p, b)
    ensures p != [] && IsWalk(g, a, p, b) && (|p| == 1 || Length(p[..|p| - 1]) < spacing)
  {
  }

  /** Both ends of the chain are there by road, and the nearer one is within half of it. */
  lemma NearerEnd(g: Adjacency, c: Adjacency, spacing: real, a: NodeId, p: seq<Edge>, b: NodeId, i: nat) returns (k: NodeId)
    requires WellFormed(g) && IsContraction(g, c, spacing) && ChainOf(g, c, spacing, a, p, b) && i <= |p|
    ensures k in c && (k == a || k == b)
    ensures WalkOfLength(g, NodeAt(a, p, i), k, EndDistance(p, i)) && 0.0 <= 2.0 * EndDistance(p, i) <= Length(p)
  {
    hide IsContraction, ChainOf, Length, IsWalk, NodeAt, WellFormed, WalkOfLength;
    ChainEnds(g, c, spacing, a, p, b);
    ChainIsOne(g, c, spacing, a, p, b);
    BothEnds(g, a, p, b, i);
    k := if Upto(p, i) <= Length(p) - Upto(p, i) then a else b;
  }

  lemma BothEnds(g: Adjacency, a: NodeId, p: seq<Edge>, b: NodeId, i: nat)
    requires WellFormed(g) && IsWalk(g, a, p, b) && i <= |p|
    ensures 0.0 <= Upto(p, i) <= Length(p)
    ensures WalkOfLength(g, NodeAt(a, p, i), a, Upto(p, i)) && WalkOfLength(g, NodeAt(a, p, i), b, Length(p) - Upto(p, i))
  {
    hide Length, IsWalk, NodeAt, WellFormed;
    SplitWalk(g, a, p, b, i);
    NeverNegative(g, a, p[..i], NodeAt(a, p, i));
    NeverNegative(g, NodeAt(a, p, i), p[i..], b);
    assert WalkOfLength(g, a, NodeAt(a, p, i), Upto(p, i));
    assert WalkOfLength(g, NodeAt(a, p, i), b, Length(p) - Upto(p, i));
    WalkOfLengthBack(g, a, NodeAt(a, p, i), Upto(p, i));
  }

  // ---------- the snapping error ----------

  /** A kept node within this distance by road. */
  ghost predicate KeptWithin(g: Adjacency, c: Adjacency, x: NodeId, bound: real) {
    exists k, d :: k in c && 0.0 <= d <= bound && WalkOfLength(g, x, k, d)
  }

  ghost predicate IsRoad(g: Adjacency, x: NodeId) {
    x in g && g[x] != [] && !Twin(g, x)
  }

  lemma Position(p: seq<Edge>, a: NodeId, x: NodeId) returns (i: nat)
    requires x in Inner(p)
    ensures 0 < i < |p| && NodeAt(a, p, i) == x
  {
    var init := p[..|p| - 1];
    var e :| e in init && e.target == x;
    var j :| 0 <= j < |init| && init[j] == e;
    i := j + 1;
  }

  /** Every removed node lies on a chain; the nearest kept node is the nearer end
      of that chain, at no more than half its length, so at less than half of the
      spacing plus the chain's last edge. */
  lemma SnapError(g: Adjacency, c: Adjacency, spacing: real, x: NodeId) returns (a: NodeId, p: seq<Edge>, b: NodeId, k: NodeId, d: real)
    requires WellFormed(g) && IsContraction(g, c, spacing) && IsRoad(g, x) && x !in c
    ensures ChainOf(g, c, spacing, a, p, b) && x in Inner(p)
    ensures k in c && (k == a || k == b) && WalkOfLength(g, x, k, d)
    ensures forall q, v :: v in c && IsWalk(g, x, q, v) ==> d <= Length(q)
    ensures 0.0 <= 2.0 * d <= Length(p) < spacing + p[|p| - 1].length
  {
    assert Fate(g, c, spacing, x);
    a, p, b :| Merged(g, c, g.Keys - c.Keys, spacing, a, p, b) && x in Inner(p);
    assert ChainOf(g, c, spacing, a, p, b);
    hide *;
    var i := Position(p, a, x);
    k := NearerEnd(g, c, spacing, a, p, b, i);
    d := EndDistance(p, i);
    forall q, v | v in c && IsWalk(g, x, q, v)
      ensures d <= Length(q)
    {
      WayOut(g, c, spacing, a, p, b, i, q, v);
    }
    CutLength(g, c, spacing, a, p, b);
  }

  lemma CutLength(g: Adjacency, c: Adjacency, spacing: real, a: NodeId, p: seq<Edge>, b: NodeId)
    requires ChainOf(g, c, spacing, a, p, b) && |p| > 1
    ensures Length(p) < spacing + p[|p| - 1].length
  {
    NextAlong(g, a, p, b, |p| - 1);
    assert p[..|p|] == p;
  }

  /** No inner node of the chain is more than half the spacing from both its ends. */
  ghost predicate MiddleFree(p: seq<Edge>, spacing: real) {
    forall i :: 0 < i < |p| ==> 2.0 * Upto(p, i) <= spacing || 2.0 * (Length(p) - Upto(p, i)) <= spacing
  }

  lemma InnerIsRoad(g: Adjacency, c: Adjacency, spacing: real, a: NodeId, p: seq<Edge>, b: NodeId, i: nat)
    requires WellFormed(g) && IsContraction(g, c, spacing) && ChainOf(g, c, spacing, a, p, b) && 0 < i < |p|
    ensures IsRoad(g, NodeAt(a, p, i)) && NodeAt(a, p, i) !in c
  {
    var x := NodeAt(a, p, i);
    ChainEnds(g, c, spacing, a, p, b);
    SplitWalk(g, a, p, b, i);
    NextAlong(g, a, p, b, i);
    InnerNode(g, c, spacing, a, p, b, i, p[i]);
    assert Fate(g, c, spacing, b);
    if Twin(g, x) {
      TwinsStayTwins(g, x, p[i..], b);
    }
  }

  /** The snapping error stays within half the spacing exactly when no chain has an
      inner node in its middle, more than that from both ends. */
  lemma HalfSpacingExactly(g: Adjacency, c: Adjacency, spacing: real)
    requires WellFormed(g) && IsContraction(g, c, spacing) && spacing >= 0.0
    ensures (forall x :: IsRoad(g, x) ==> KeptWithin(g, c, x, spacing / 2.0))
       <==> (forall a, p, b :: ChainOf(g, c, spacing, a, p, b) ==> MiddleFree(p, spacing))
  {
    hide IsContraction, WellFormed, ChainOf, IsRoad;
    if forall x :: IsRoad(g, x) ==> KeptWithin(g, c, x, spacing / 2.0) {
      forall a, p, b, i | ChainOf(g, c, spacing, a, p, b) && 0 < i < |p|
        ensures 2.0 * Upto(p, i) <= spacing || 2.0 * (Length(p) - Upto(p, i)) <= spacing
      {
        var x := NodeAt(a, p, i);
        InnerIsRoad(g, c, spacing, a, p, b, i);
        var k, d :| k in c && 0.0 <= d <= spacing / 2.0 && WalkOfLength(g, x, k, d);
        var q :| IsWalk(g, x, q, k) && Length(q) == d;
        WayOut(g, c, spacing, a, p, b, i, q, k);
      }
    }
    if forall a, p, b :: ChainOf(g, c, spacing, a, p, b) ==> MiddleFree(p, spacing) {
      forall x | IsRoad(g, x)
        ensures KeptWithin(g, c, x, spacing / 2.0)
      {
        if x in c {
          assert IsWalk(g, x, [], x);
          assert WalkOfLength(g, x, x, 0.0);
        } else {
          HalfWay(g, c, spacing, x);
        }
      }
    }
  }

  lemma HalfWay(g: Adjacency, c: Adjacency, spacing: real, x: NodeId)
    requires WellFormed(g) && IsContraction(g, c, spacing) && IsRoad(g, x) && x !in c
    requires forall a, p, b :: ChainOf(g, c, spacing, a, p, b) ==> MiddleFree(p, spacing)
    ensures KeptWithin(g, c, x, spacing / 2.0)
  {
    hide *;
    var a, p, b, k, d := SnapError(g, c, spacing, x);
    var i := Position(p, a, x);
    InTheMiddle(p, spacing, i);
    k := NearerEnd(g, c, spacing, a, p, b, i);
    IsKeptWithin(g, c, x, k, EndDistance(p, i), spacing / 2.0);
  }

  lemma InTheMiddle(p: seq<Edge>, spacing: real, i: nat)
    requires MiddleFree(p, spacing) && 0 < i < |p|
    ensures EndDistance(p, i) <= spacing / 2.0
  {
  }

  lemma IsKeptWithin(g: Adjacency, c: Adjacency, x: NodeId, k: NodeId, d: real, bound: real)
    requires k in c && 0.0 <= d <= bound && WalkOfLength(g, x, k, d)
    ensures KeptWithin(g, c, x, bound)
  {
  }

  // ---------- where half the spacing is not enough ----------

  ghost predicate AllLong(g: Adjacency, l: real) {
    forall n, e :: n in g && e in g[n] ==> e.length == l
  }

  /** A way of two stretches of 100 m each. */
  lemma HalfSpacingFails(f: Feature, passable: Passable, dist: Metric, a: NodeId, x: NodeId, b: NodeId, c: Adjacency)
    requires a != x && x != b && a != b && dist(a, x) == 100.0 && dist(x, b) == 100.0
    requires f.points == [a, x, b] && Usable(f, passable)
    requires IsContraction(Roads([f], passable, dist), c, MIN_NODE_SPACING_M)
    ensures var g := Roads([f], passable, dist);
      WellFormed(g) && IsRoad(g, x) && !KeptWithin(g, c, x, MIN_NODE_SPACING_M / 2.0)
  {
    hide *;
    RoadsAreWellFormed([f], passable, dist);
    TwoStretchesShape(f, passable, dist, a, x, b, 100.0);
    MiddleIsFar(Roads([f], passable, dist), a, x, b, c);
  }

  lemma TwoStretchesShape(f: Feature, passable: Passable, dist: Metric, a: NodeId, x: NodeId, b: NodeId, l: real)
    requires a != x && x != b && a != b && dist(a, x) == l && dist(x, b) == l
    requires f.points == [a, x, b] && Usable(f, passable)
    ensures var g := Roads([f], passable, dist);
      && g.Keys == {a, x, b} && |g[a]| == 1 && |g[b]| == 1 && |g[x]| == 2
      && g[a][0].target == x && g[x][0].target == a && g[x][1].target == b
      && AllLong(g, l)
  {
    TwoStretches(f, passable, dist, a, x, b, l);
    hide Roads, Usable;
  }

  lemma MiddleIsFar(g: Adjacency, a: NodeId, x: NodeId, b: NodeId, c: Adjacency)
    requires WellFormed(g) && IsContraction(g, c, MIN_NODE_SPACING_M)
    requires g.Keys == {a, x, b} && |g[a]| == 1 && |g[b]| == 1 && |g[x]| == 2
    requires g[x][0].target == a && g[x][1].target == b && a != b
    requires AllLong(g, 100.0)
    ensures IsRoad(g, x) && !KeptWithin(g, c, x, MIN_NODE_SPACING_M / 2.0)
  {
    MiddleGoes(g, a, x, b, c);
    hide WellFormed, IsContraction;
    forall k: NodeId, q: seq<Edge> | k in c && IsWalk(g, x, q, k)
      ensures Length(q) >= 100.0
    {
      NeverNegative(g, q[0].target, q[1..], k);
    }
  }

  lemma MiddleGoes(g: Adjacency, a: NodeId, x: NodeId, b: NodeId, c: Adjacency)
    requires WellFormed(g) && IsContraction(g, c, MIN_NODE_SPACING_M)
    requires g.Keys == {a, x, b} && |g[a]| == 1 && |g[b]| == 1 && |g[x]| == 2
    requires g[x][0].target == a && g[x][1].target == b && a != b
    requires AllLong(g, 100.0)
    ensures x !in c
  {
    assert Fate(g, c, MIN_NODE_SPACING_M, a) && Fate(g, c, MIN_NODE_SPACING_M, b);
    if x in c {
      assert c.Keys == g.Keys && KeptFor(g, c, MIN_NODE_SPACING_M, x);
      hide IsContraction, WellFormed, Fate;
      StepWalk(g, x, g[x][0]);
      assert Connected(g, x, a) && !OnRing(g, x) && !Spur(g, x);
      var e :| e in Neighbours(c, x) && e.length >= MIN_NODE_SPACING_M;
      var f := NothingRemoved(g, c, MIN_NODE_SPACING_M, x, e);
    }
  }

  // ---------- where nothing is removed ----------

  /** With every node kept, a segment is an edge of the full graph. */
  lemma NothingRemoved(g: Adjacency, c: Adjacency, spacing: real, x: NodeId, e: Edge) returns (f: Edge)
    requires WellFormed(g) && IsContraction(g, c, spacing) && c.Keys == g.Keys && x in c && e in c[x]
    ensures f in Neighbours(g, x) && f.target == e.target && f.length == e.length
  {
    assert g.Keys - c.Keys == {};
    assert SegmentOk(g, c, {}, spacing, x, e);
    hide IsContraction, WellFormed;
    if HasChain(g, {}, spacing, x, e.target, e.length) {
      var p :| ChainWalk(g, {}, spacing, x, p, e.target) && Length(p) == e.length;
      SingleEdge(g, spacing, x, p, e.target);
      f := p[0];
    } else {
      var p :| ChainWalk(g, {}, spacing, e.target, p, x) && Length(p) == e.length;
      SingleEdge(g, spacing, e.target, p, x);
      EdgeLengthUnique(g, e.target, p[0]);
      f :| f in Neighbours(g, x) && f.target == e.target;
      EdgeLengthUnique(g, x, f);
    }
  }

  lemma SingleEdge(g: Adjacency, spacing: real, a: NodeId, p: seq<Edge>, b: NodeId)
    requires ChainWalk(g, {}, spacing, a, p, b)
    ensures |p| == 1 && p[0] in Neighbours(g, a) && p[0].target == b && Length(p) == p[0].length
  {
    if |p| > 1 {
      InnerAt(p, a, 1);
    }
    WalkEnds(g, a, p, b);
    assert p[1..] == [];
  }

  // ---------- what is lost ----------

  /** A way there and back between two places: both disappear. */
  lemma TwinsAreLost(f: Feature, passable: Passable, dist: Metric, a: NodeId, b: NodeId, c: Adjacency, spacing: real)
    requires a != b && f.points == [a, b, a] && Usable(f, passable)
    requires IsContraction(Roads([f], passable, dist), c, spacing)
    ensures Roads([f], passable, dist).Keys == {a, b} && c == map[]
  {
    var g := Roads([f], passable, dist);
    ThereAndBack(f, passable, dist, a, b);
    hide Roads;
    assert Twin(g, a) && Twin(g, b);
    assert Fate(g, c, spacing, a) && Fate(g, c, spacing, b);
    assert a !in c && b !in c;
    assert c.Keys == {};
  }

  lemma ThereAndBack(f: Feature, passable: Passable, dist: Metric, a: NodeId, b: NodeId)
    requires a != b && f.points == [a, b, a] && Usable(f, passable)
    ensures var w, t, l := f.wayId, f.tags, dist(a, b);
      Roads([f], passable, dist) == map[a := [Edge(b, l, w, t), Edge(b, l, w, t)], b := [Edge(a, l, w, t), Edge(a, l, w, t)]]
  {
    ThreePoints(f, passable, dist);
    FirstSegment(a, b, dist(a, b), f.wayId, f.tags);
    assert dist(b, a) == dist(a, b);
    hide Roads;
    var w, t, l := f.wayId, f.tags, dist(a, b);
    var g1 := map[a := [Edge(b, l, w, t)], b := [Edge(a, l, w, t)]];
    assert WithSegment(g1, b, a, l, w, t) ==
           map[a := [Edge(b, l, w, t)] + [Edge(b, l, w, t)], b := [Edge(a, l, w, t)] + [Edge(a, l, w, t)]];
    assert [Edge(b, l, w, t)] + [Edge(b, l, w, t)] == [Edge(b, l, w, t), Edge(b, l, w, t)];
    assert [Edge(a, l, w, t)] + [Edge(a, l, w, t)] == [Edge(a, l, w, t), Edge(a, l, w, t)];
  }
}
