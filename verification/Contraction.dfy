/** Contracting a road graph to its junctions and spaced nodes. */
module Contraction {
  import opened Options
  import opened Geometry
  import opened Walks
  import opened RoadGraphs
  import opened Junctions
  import opened Sums
  import opened Chains
  import opened ChainSteps

  const MIN_NODE_SPACING_M: real := 150.0

  /** The first edge that does not lead straight back. */
  function FirstOther(s: seq<Edge>, previous: NodeId): (r: Option<Edge>)
    ensures r.Some? ==> r.value in s && r.value.target != previous
    ensures r.None? ==> forall e :: e in s ==> e.target == previous
  {
    if s == [] then None
    else if s[0].target != previous then Some(s[0])
    else FirstOther(s[1..], previous)
  }

  lemma OneWayOn(g: Adjacency, x: NodeId, previous: NodeId, e: Edge)
    requires x in g && |g[x]| == 2 && HasEdge(g, x, previous) && e in Neighbours(g, x) && e.target != previous
    ensures forall f :: f in Neighbours(g, x) ==> f.target == previous || f.target == e.target
  {
    assert g[x] == [g[x][0], g[x][1]];
  }

  /** A chain that ended leaves nothing open: its last node is a junction or is walked on every edge. */
  lemma ChainEnded(g: Adjacency, J: set<NodeId>, c: Adjacency, spacing: real, walked: set<Pair>, pos: map<NodeId, Pos>, last: NodeId)
    requires Between(g, J, c, spacing, walked, pos, Some(last))
    requires last in J || AllWalked(g, walked, last)
    ensures Between(g, J, c, spacing, walked, pos, None)
  {
  }

  /** Where the walk stands, as far as choosing the next edge needs it. */
  lemma Standing(g: Adjacency, J: set<NodeId>, c: Adjacency, spacing: real, walked: set<Pair>, done: set<Pair>, pos: map<NodeId, Pos>, o: Open)
    requires Base(g, J) && Midway(g, J, c, spacing, walked, done, pos, o)
    ensures o.current in g && HasEdge(g, o.current, o.prev)
    ensures o.current !in J ==> |g[o.current]| == 2 && o.current != o.anchor && !Twin(g, o.current)
    ensures (o.current, o.prev) in walked
    ensures o.current !in J ==> forall y :: (o.current, y) in walked ==> y == o.prev
  {
    assert PairOk(g, walked, o.prev, o.current) && PairOk(g, walked, o.current, o.prev);
    HasEdgeSymmetric(g, o.prev, o.current);
  }

  lemma StartChain(g: Adjacency, J: set<NodeId>, c: Adjacency, spacing: real, walked: set<Pair>, pos: map<NodeId, Pos>, start: NodeId, first: Edge)
    requires Base(g, J) && Between(g, J, c, spacing, walked, pos, None)
    requires start in J && first in Neighbours(g, start) && (start, first.target) !in walked
    ensures Midway(g, J, c, spacing, walked + Both(start, first.target), walked, pos, Open(start, map[], start, first.target, first.length))
  {
    OpenSegment(g, J, c, spacing, walked, pos, None, start, first);
  }

  /** The walk goes on past a node that was not kept. */
  lemma GoOn(g: Adjacency, J: set<NodeId>, c: Adjacency, spacing: real, walked: set<Pair>, done: set<Pair>, pos: map<NodeId, Pos>, o: Open, e: Edge)
    requires Base(g, J) && Midway(g, J, c, spacing, walked, done, pos, o)
    requires o.current !in J && o.length < spacing
    requires e in Neighbours(g, o.current) && e.target != o.prev
    ensures (o.current, e.target) in AllPairs(g) - walked
    ensures Midway(g, J, c, spacing, walked + Both(o.current, e.target), done, pos, Longer(o, e))
  {
    hide *;
    Standing(g, J, c, spacing, walked, done, pos, o);
    OneWayOn(g, o.current, o.prev, e);
    Lengthen(g, J, c, spacing, walked, done, pos, o, e);
    PairListed(g, o.current, e);
  }

  /** The walk goes on from a node where it was just cut. */
  lemma GoOnFromCut(g: Adjacency, J: set<NodeId>, c: Adjacency, spacing: real, walked: set<Pair>, pos: map<NodeId, Pos>, current: NodeId, previous: NodeId, e: Edge)
    requires Base(g, J) && Between(g, J, c, spacing, walked, pos, Some(current))
    requires current in c && current in g && current !in J && !Twin(g, current)
    requires HasEdge(g, current, previous) && (current, previous) in walked
    requires forall y :: (current, y) in walked ==> y == previous
    requires e in Neighbours(g, current) && e.target != previous
    ensures (current, e.target) in AllPairs(g) - walked
    ensures Midway(g, J, c, spacing, walked + Both(current, e.target), walked, pos, Open(current, map[], current, e.target, e.length))
  {
    hide *;
    TwoWays(g, J, current);
    OneWayOn(g, current, previous, e);
    BothWalked(g, walked, current, previous, e);
    NewPair(walked, current, previous, e);
    OpenSegment(g, J, c, spacing, walked, pos, Some(current), current, e);
    PairListed(g, current, e);
  }

  lemma TwoWays(g: Adjacency, J: set<NodeId>, x: NodeId)
    requires Base(g, J) && x in g && x !in J
    ensures |g[x]| == 2
  {
  }

  lemma BothWalked(g: Adjacency, walked: set<Pair>, current: NodeId, previous: NodeId, e: Edge)
    requires (current, previous) in walked
    requires forall f :: f in Neighbours(g, current) ==> f.target == previous || f.target == e.target
    ensures AllWalked(g, walked + Both(current, e.target), current)
  {
  }

  lemma NewPair(walked: set<Pair>, current: NodeId, previous: NodeId, e: Edge)
    requires (forall y :: (current, y) in walked ==> y == previous) && e.target != previous
    ensures (current, e.target) !in walked
  {
  }

  lemma PairListed(g: Adjacency, x: NodeId, e: Edge)
    requires e in Neighbours(g, x)
    ensures (x, e.target) in AllPairs(g)
  {
  }

  /** A walk that cannot go on has walked its last node on every edge: both lead back. */
  lemma NoWayOn(g: Adjacency, walked: set<Pair>, current: NodeId, previous: NodeId)
    requires (current, previous) in walked
    requires forall e :: e in Neighbours(g, current) ==> e.target == previous
    ensures AllWalked(g, walked, current)
    ensures current in g && |g[current]| == 2 ==> Spur(g, current)
  {
  }

  /** Closing the open segment with one call of `AddSegment`. */
  method Emit(g: Adjacency, contracted: RoadGraph, junctions: set<NodeId>, anchor: NodeId, current: NodeId, length: real, first: Edge, spacing: real, ghost walked: set<Pair>, ghost done: set<Pair>, ghost pos0: map<NodeId, Pos>, ghost o: Open)
    returns (ghost pos: map<NodeId, Pos>)
    requires Base(g, junctions) && contracted.Valid()
    requires Midway(g, junctions, contracted.nodes, spacing, walked, done, pos0, o)
    requires o.anchor == anchor && o.current == current && o.length == length
    requires current in junctions || Spur(g, current) || length >= spacing
    modifies contracted`nodes, contracted`index
    ensures contracted.Valid() && current in contracted.nodes
    ensures Between(g, junctions, contracted.nodes, spacing, walked, pos, Some(current))
  {
    hide *;
    CloseSegment(g, junctions, contracted.nodes, spacing, walked, done, pos0, o, first.wayId, first.tags);
    WithSegmentEdges(contracted.nodes, anchor, current, length, first.wayId, first.tags);
    contracted.AddSegment(anchor, current, length, first.wayId, first.tags);
    pos := Settle(pos0, o);
  }

  method WalkChain(g: Adjacency, contracted: RoadGraph, junctions: set<NodeId>, walked0: set<Pair>, ghost pos0: map<NodeId, Pos>, start: NodeId, first: Edge, spacing: real)
    returns (walked: set<Pair>, ghost pos: map<NodeId, Pos>)
    requires Base(g, junctions) && contracted.Valid()
    requires Between(g, junctions, contracted.nodes, spacing, walked0, pos0, None)
    requires start in junctions && first in Neighbours(g, start) && (start, first.target) !in walked0
    modifies contracted`nodes, contracted`index
    ensures contracted.Valid()
    ensures Between(g, junctions, contracted.nodes, spacing, walked, pos, None)
    ensures walked0 + Both(start, first.target) <= walked
  {
    var anchor, previous, current, length := start, start, first.target, first.length;
    hide Base, Midway, Between, RoadGraph.Valid, Spur, AllPairs, HasEdge, Twin, AllWalked;
    StartChain(g, junctions, contracted.nodes, spacing, walked0, pos0, start, first);
    walked := walked0 + Both(start, first.target);
    pos := pos0;
    ghost var done, o := walked0, Open(anchor, map[], previous, current, length);
    while true
      invariant o == Open(anchor, o.offs, previous, current, length)
      invariant contracted.Valid()
      invariant Midway(g, junctions, contracted.nodes, spacing, walked, done, pos, o)
      invariant walked0 + Both(start, first.target) <= walked
      decreases AllPairs(g) - walked
    {
      Standing(g, junctions, contracted.nodes, spacing, walked, done, pos, o);
      var edges := g[current];
      var atJunction := current in junctions;
      ghost var cut := false;
      if atJunction || length >= spacing {
        pos := Emit(g, contracted, junctions, anchor, current, length, first, spacing, walked, done, pos, o);
        cut := true;
        if atJunction {
          ChainEnded(g, junctions, contracted.nodes, spacing, walked, pos, current);
          return;
        }
        anchor, length := current, 0.0;
      }
      var nxt := FirstOther(edges, previous);
      if nxt.None? {
        NoWayOn(g, walked, current, previous);
        if current != anchor {
          pos := Emit(g, contracted, junctions, anchor, current, length, first, spacing, walked, done, pos, o);
        }
        ChainEnded(g, junctions, contracted.nodes, spacing, walked, pos, current);
        return;
      }
      var e := nxt.value;
      if cut {
        GoOnFromCut(g, junctions, contracted.nodes, spacing, walked, pos, current, previous, e);
        done, o := walked, Open(current, map[], current, e.target, e.length);
      } else {
        GoOn(g, junctions, contracted.nodes, spacing, walked, done, pos, o, e);
        o := Longer(o, e);
      }
      walked := walked + Both(current, e.target);
      previous, current := current, e.target;
      length := length + e.length;
    }
  }

  // ---------- what the finished contraction guarantees ----------

  /** Walks between kept nodes: each contracted one has an original of the same
      length, and each original one a contracted one that is no longer. */
  ghost predicate SameDistances(g: Adjacency, c: Adjacency) {
    && (forall u, p, v :: u in c && IsWalk(c, u, p, v) ==> WalkOfLength(g, u, v, Length(p)))
    && (forall u, q, v :: u in c && v in c && IsWalk(g, u, q, v) ==> Within(c, u, v, Length(q)))
  }

  /** A kept node is less than the spacing away by road. */
  ghost predicate NearKept(g: Adjacency, c: Adjacency, spacing: real, x: NodeId) {
    x in c || exists a, d :: a in c && 0.0 <= d < spacing && WalkOfLength(g, x, a, d)
  }

  /** The pairs of neighbours outside the two-node components joined twice. */
  ghost function RoadPairs(g: Adjacency): set<Pair> {
    set p | p in AllPairs(g) && !Twin(g, p.0)
  }

  /** A node kept for a reason: it is no shape point, or a ring has no better
      one, or both its edges lead to one neighbour, or a chain was cut there. */
  ghost predicate KeptFor(g: Adjacency, c: Adjacency, spacing: real, x: NodeId) {
    x in g && (|g[x]| != 2 || OnRing(g, x) || Spur(g, x) || LongEnd(c, spacing, x))
  }

  /** What becomes of a node that has an edge. */
  ghost predicate Fate(g: Adjacency, c: Adjacency, spacing: real, x: NodeId)
    requires x in g
  {
    && (|g[x]| != 2 ==> x in c)
    && (NearKept(g, c, spacing, x) <==> !Twin(g, x))
    && (x in c || Twin(g, x) || OnChain(g, c, g.Keys - c.Keys, spacing, x))
  }

  /** The contraction's contract: distances, segments that stand for chains cut in
      time, every removed node on one of them, nothing kept without a reason, and
      the length of the whole. */
  ghost predicate IsContraction(g: Adjacency, c: Adjacency, spacing: real) {
    && c.Keys <= g.Keys
    && SameDistances(g, c)
    && SegmentsOk(g, c, g.Keys - c.Keys, spacing)
    && (forall x :: x in g && g[x] != [] ==> Fate(g, c, spacing, x))
    && (forall x :: x in c ==> KeptFor(g, c, spacing, x))
    && Total(c) == PairSum(g, RoadPairs(g))
  }

  ghost predicate Complete(g: Adjacency, J: set<NodeId>, walked: set<Pair>) {
    forall x :: x in J ==> AllWalked(g, walked, x)
  }

  /** Every contracted walk expands to an original walk of the same length. */
  lemma {:induction false} Expand(g: Adjacency, c: Adjacency, removed: set<NodeId>, spacing: real, u: NodeId, p: seq<Edge>, v: NodeId)
    requires SegmentsOk(g, c, removed, spacing) && u in c && IsWalk(c, u, p, v)
    ensures v in c && WalkOfLength(g, u, v, Length(p))
    decreases |p|
  {
    if p == [] {
      assert IsWalk(g, u, [], u);
    } else {
      assert SegmentOk(g, c, removed, spacing, u, p[0]);
      Expand(g, c, removed, spacing, p[0].target, p[1..], v);
      var s :| IsWalk(g, u, s, p[0].target) && Length(s) == p[0].length;
      var t :| IsWalk(g, p[0].target, t, v) && Length(t) == Length(p[1..]);
      WalkConcat(g, u, s, p[0].target, t, v);
    }
  }

  lemma HopThenWithin(c: Adjacency, p: NodeId, q: NodeId, v: NodeId, hop: real, rest: real)
    requires Hop(c, p, q, hop) && Within(c, q, v, rest)
    ensures Within(c, p, v, hop + rest)
  {
    var t :| IsWalk(c, q, t, v) && Length(t) <= rest;
    if !(p == q && hop >= 0.0) {
      var e :| e in Neighbours(c, p) && e.target == q && e.length <= hop;
      StepWalk(c, p, e);
      WalkConcat(c, p, [e], q, t, v);
    }
  }

  /** Every original walk to a kept node is shadowed in the contracted graph,
      from whichever end of the segment its first node lies on. */
  lemma {:induction false} Shadow(g: Adjacency, c: Adjacency, pos: map<NodeId, Pos>, walked: set<Pair>, y: NodeId, q: seq<Edge>, v: NodeId)
    requires WellFormed(g) && StepsDone(g, c, pos, walked)
    requires forall x :: x in pos ==> AllWalked(g, walked, x)
    requires y in pos && v in pos && pos[v] == Kept(v) && IsWalk(g, y, q, v)
    ensures Within(c, pos[y].a, v, Length(q) + pos[y].da)
    ensures Within(c, pos[y].b, v, Length(q) + pos[y].db)
    decreases |q|
  {
    if q == [] {
      assert IsWalk(c, v, [], v);
    } else {
      var z := q[0].target;
      assert AllWalked(g, walked, y);
      assert StepDone(g, c, pos, y, z);
      EdgeLengthUnique(g, y, q[0]);
      Shadow(g, c, pos, walked, z, q[1..], v);
      ShadowStep(c, pos[y].a, pos[y].da, pos[z], q[0].length, v, Length(q[1..]));
      ShadowStep(c, pos[y].b, pos[y].db, pos[z], q[0].length, v, Length(q[1..]));
    }
  }

  lemma ShadowStep(c: Adjacency, p: NodeId, d: real, Q: Pos, w: real, v: NodeId, rest: real)
    requires StepFrom(c, p, d, Q, w)
    requires Within(c, Q.a, v, rest + Q.da) && Within(c, Q.b, v, rest + Q.db)
    ensures Within(c, p, v, w + rest + d)
  {
    if Hop(c, p, Q.a, w + d - Q.da) {
      HopThenWithin(c, p, Q.a, v, w + d - Q.da, rest + Q.da);
    } else {
      HopThenWithin(c, p, Q.b, v, w + d - Q.db, rest + Q.db);
    }
  }

  lemma Distances(g: Adjacency, c: Adjacency, removed: set<NodeId>, spacing: real, pos: map<NodeId, Pos>, walked: set<Pair>)
    requires WellFormed(g) && StepsDone(g, c, pos, walked) && SegmentsOk(g, c, removed, spacing)
    requires forall x :: x in pos ==> AllWalked(g, walked, x)
    requires forall x :: x in c ==> x in pos && pos[x] == Kept(x)
    ensures SameDistances(g, c)
  {
    forall u, p, v | u in c && IsWalk(c, u, p, v)
      ensures WalkOfLength(g, u, v, Length(p))
    {
      Expand(g, c, removed, spacing, u, p, v);
    }
    forall u, q, v | u in c && v in c && IsWalk(g, u, q, v)
      ensures Within(c, u, v, Length(q))
    {
      Shadow(g, c, pos, walked, u, q, v);
    }
  }

  /** A node connected to a junction has been met. */
  lemma {:induction false} Met(g: Adjacency, J: set<NodeId>, c: Adjacency, pos: map<NodeId, Pos>, walked: set<Pair>, x: NodeId, p: seq<Edge>, v: NodeId)
    requires WellFormed(g) && StepsDone(g, c, pos, walked) && Complete(g, J, walked)
    requires forall y :: y in pos ==> AllWalked(g, walked, y)
    requires x in g && g[x] != [] && v in J && IsWalk(g, x, p, v)
    ensures x in pos
    decreases |p|
  {
    if p == [] {
      assert AllWalked(g, walked, x);
      assert g[x][0] in Neighbours(g, x);
      assert StepDone(g, c, pos, x, g[x][0].target);
    } else {
      var y := p[0].target;
      EdgeLengthUnique(g, x, p[0]);
      var back :| back in Neighbours(g, y) && back.target == x;
      Met(g, J, c, pos, walked, y, p[1..], v);
      assert AllWalked(g, walked, y);
      assert StepDone(g, c, pos, y, x);
    }
  }

  lemma {:induction false} TwinsStayTwins(g: Adjacency, x: NodeId, p: seq<Edge>, v: NodeId)
    requires Twin(g, x) && IsWalk(g, x, p, v)
    ensures Twin(g, v)
    decreases |p|
  {
    if p != [] {
      assert g[x] == [g[x][0], g[x][1]];
      TwinsStayTwins(g, p[0].target, p[1..], v);
    }
  }

  /** All that the finished walk has established. */
  ghost predicate Finished(g: Adjacency, J: set<NodeId>, c: Adjacency, spacing: real, walked: set<Pair>, pos: map<NodeId, Pos>) {
    && Base(g, J) && (forall x :: x in g ==> Anchored(g, J, x))
    && Between(g, J, c, spacing, walked, pos, None) && Complete(g, J, walked)
  }

  lemma MetIffRoad(g: Adjacency, J: set<NodeId>, c: Adjacency, spacing: real, walked: set<Pair>, pos: map<NodeId, Pos>, x: NodeId)
    requires Finished(g, J, c, spacing, walked, pos) && x in g && g[x] != []
    ensures x in pos <==> !Twin(g, x)
    ensures x in pos ==> AllWalked(g, walked, x)
  {
    if x in pos {
      assert AllWalked(g, walked, x);
      assert g[x][0] in Neighbours(g, x);
      assert PairOk(g, walked, x, g[x][0].target);
    } else if !Twin(g, x) {
      assert Anchored(g, J, x);
      var v :| v in J && Connected(g, x, v);
      var p :| IsWalk(g, x, p, v);
      Met(g, J, c, pos, walked, x, p, v);
    }
  }

  lemma Coverage(g: Adjacency, J: set<NodeId>, c: Adjacency, spacing: real, walked: set<Pair>, pos: map<NodeId, Pos>, x: NodeId)
    requires Finished(g, J, c, spacing, walked, pos) && x in g && g[x] != []
    ensures NearKept(g, c, spacing, x) <==> !Twin(g, x)
    ensures x in J ==> x in c
  {
    MetIffRoad(g, J, c, spacing, walked, pos, x);
    if x in pos {
      assert PosAt(g, J, c, spacing, x, pos[x]);
    }
    if Twin(g, x) && x !in c {
      forall a, d | a in c && WalkOfLength(g, x, a, d)
        ensures false
      {
        var p :| IsWalk(g, x, p, a) && Length(p) == d;
        TwinsStayTwins(g, x, p, a);
        MetIffRoad(g, J, c, spacing, walked, pos, a);
      }
    }
  }

  lemma WalkedIsRoads(g: Adjacency, J: set<NodeId>, c: Adjacency, spacing: real, walked: set<Pair>, pos: map<NodeId, Pos>)
    requires Finished(g, J, c, spacing, walked, pos)
    ensures walked == RoadPairs(g)
  {
    forall p | p in walked
      ensures p in RoadPairs(g)
    {
      assert PairOk(g, walked, p.0, p.1);
    }
    forall p | p in RoadPairs(g)
      ensures p in walked
    {
      MetIffRoad(g, J, c, spacing, walked, pos, p.0);
    }
  }

  /** A removed node stays removed, and the chain it lies on is one of removed nodes. */
  lemma FinalChains(g: Adjacency, J: set<NodeId>, c: Adjacency, spacing: real, pos: map<NodeId, Pos>)
    requires Built(g, J, c, spacing, pos) && PosOk(g, J, c, spacing, pos)
    ensures c.Keys <= g.Keys && SegmentsOk(g, c, g.Keys - c.Keys, spacing)
    ensures forall x :: x in pos && x !in c ==> OnChain(g, c, g.Keys - c.Keys, spacing, x)
  {
    var removed, all := Removed(c, pos), g.Keys - c.Keys;
    hide SegmentOk, OnChain, Needed;
    assert forall x :: x in pos ==> PosAt(g, J, c, spacing, x, pos[x]);
    assert removed <= all;
    forall a, e | a in c && e in c[a]
      ensures SegmentOk(g, c, all, spacing, a, e)
    {
      SegmentGrows(g, c, c, removed, all, spacing, a, e);
    }
    forall x | x in pos && x !in c
      ensures OnChain(g, c, all, spacing, x)
    {
      OnChainGrows(g, c, c, removed, all, spacing, x);
    }
  }

  lemma AllKeptFor(g: Adjacency, J: set<NodeId>, c: Adjacency, spacing: real)
    requires J <= g.Keys && OnePerRing(g, J) && c.Keys <= g.Keys
    requires forall x :: x in c ==> Needed(g, J, c, spacing, x)
    ensures forall x :: x in c ==> KeptFor(g, c, spacing, x)
  {
    hide OnRing, Spur, LongEnd;
    forall x | x in c
      ensures KeptFor(g, c, spacing, x)
    {
      assert Needed(g, J, c, spacing, x);
    }
  }

  lemma KeptDistances(g: Adjacency, J: set<NodeId>, c: Adjacency, spacing: real, walked: set<Pair>, pos: map<NodeId, Pos>)
    requires Base(g, J) && Between(g, J, c, spacing, walked, pos, None) && Complete(g, J, walked)
    ensures SameDistances(g, c)
  {
    forall x | x in pos
      ensures AllWalked(g, walked, x) && (x in c ==> pos[x] == Kept(x))
    {
      assert PosAt(g, J, c, spacing, x, pos[x]);
    }
    Distances(g, c, Removed(c, pos), spacing, pos, walked);
  }

  lemma FinishedIsContraction(g: Adjacency, J: set<NodeId>, c: Adjacency, spacing: real, walked: set<Pair>, pos: map<NodeId, Pos>)
    requires Base(g, J) && OnePerRing(g, J) && (forall x :: x in g ==> Anchored(g, J, x))
    requires Between(g, J, c, spacing, walked, pos, None) && Complete(g, J, walked)
    ensures IsContraction(g, c, spacing)
  {
    hide SegmentOk, SegmentsOk, SameDistances, OnChain, OnRing, OnePerRing, Needed, KeptFor, WellFormed, NearKept, StepsDone, WalkedOk, PosAt, AllWalked, Total, PairSum, Twin, Anchored;
    KeptDistances(g, J, c, spacing, walked, pos);
    FinalChains(g, J, c, spacing, pos);
    AllKeptFor(g, J, c, spacing);
    assert Finished(g, J, c, spacing, walked, pos);
    forall x | x in g && g[x] != []
      ensures Fate(g, c, spacing, x)
    {
      Coverage(g, J, c, spacing, walked, pos, x);
      MetIffRoad(g, J, c, spacing, walked, pos, x);
    }
    WalkedIsRoads(g, J, c, spacing, walked, pos);
  }

  // ---------- reading the contract ----------

  lemma OddDegreeStays(g: Adjacency, c: Adjacency, spacing: real, x: NodeId)
    requires IsContraction(g, c, spacing) && x in g && g[x] != [] && |g[x]| != 2
    ensures x in c && c.Keys <= g.Keys
  {
    hide SameDistances, SegmentsOk, KeptFor, Total, PairSum, NearKept, OnChain;
    assert Fate(g, c, spacing, x);
  }

  lemma StillWithin(g: Adjacency, c: Adjacency, spacing: real, u: NodeId, q: seq<Edge>, v: NodeId)
    requires IsContraction(g, c, spacing) && u in c && v in c && IsWalk(g, u, q, v)
    ensures Within(c, u, v, Length(q))
  {
    hide SegmentsOk, KeptFor, Fate, Total, PairSum;
  }

  /** On a graph without parallel edges nothing is lost and the total length is conserved. */
  lemma SimpleConserved(g: Adjacency, c: Adjacency, spacing: real)
    requires WellFormed(g) && Simple(g) && IsContraction(g, c, spacing)
    ensures Total(c) == Total(g)
    ensures forall x :: x in g && g[x] != [] ==> NearKept(g, c, spacing, x)
  {
    hide SegmentsOk, SameDistances, KeptFor, OnChain, Spur;
    assert forall x :: x in g && g[x] != [] ==> Fate(g, c, spacing, x);
    forall x | x in g
      ensures !Twin(g, x)
    {
      if |g[x]| == 2 {
        assert g[x][0].target != g[x][1].target;
      }
    }
    assert RoadPairs(g) == AllPairs(g);
    TotalIsPairs(g);
  }

  lemma NothingWalked(g: Adjacency, J: set<NodeId>, spacing: real)
    ensures Between(g, J, map[], spacing, {}, map[], None) && Complete(g, {}, {})
  {
  }

  lemma CompleteWith(g: Adjacency, J: set<NodeId>, walked: set<Pair>, more: set<Pair>, start: NodeId)
    requires Complete(g, J, walked) && walked <= more && AllWalked(g, more, start)
    ensures Complete(g, J + {start}, more)
  {
  }

  /** All chains that leave one junction. */
  method WalkFrom(g: Adjacency, contracted: RoadGraph, junctions: set<NodeId>, walked0: set<Pair>, ghost pos0: map<NodeId, Pos>, start: NodeId, spacing: real)
    returns (walked: set<Pair>, ghost pos: map<NodeId, Pos>)
    requires Base(g, junctions) && contracted.Valid() && start in junctions && start in g
    requires Between(g, junctions, contracted.nodes, spacing, walked0, pos0, None)
    modifies contracted`nodes, contracted`index
    ensures contracted.Valid()
    ensures Between(g, junctions, contracted.nodes, spacing, walked, pos, None)
    ensures walked0 <= walked && AllWalked(g, walked, start)
  {
    hide Base, Between, RoadGraph.Valid;
    walked, pos := walked0, pos0;
    for i := 0 to |g[start]|
      invariant contracted.Valid()
      invariant Between(g, junctions, contracted.nodes, spacing, walked, pos, None)
      invariant walked0 <= walked
      invariant forall k :: 0 <= k < i ==> (start, g[start][k].target) in walked
    {
      var first := g[start][i];
      if (start, first.target) in walked {
        continue;
      }
      walked, pos := WalkChain(g, contracted, junctions, walked, pos, start, first, spacing);
    }
  }

  method Contract(graph: RoadGraph, spacing: real) returns (contracted: RoadGraph)
    requires graph.Valid() && WellFormed(graph.nodes)
    ensures fresh(contracted) && contracted.Valid()
    ensures contracted.source == graph.source && contracted.wayCount == graph.wayCount
    ensures IsContraction(graph.nodes, contracted.nodes, spacing)
  {
    hide *;
    var g := graph.nodes;
    var junctions := FindJunctions(g);
    contracted := new RoadGraph(graph.source, graph.wayCount);
    var walked: set<Pair> := {};
    ghost var pos: map<NodeId, Pos> := map[];
    NothingWalked(g, junctions, spacing);
    ghost var from: set<NodeId> := {};
    var todo := junctions;
    while todo != {}
      invariant from + todo == junctions && fresh(contracted) && contracted.Valid()
      invariant contracted.source == graph.source && contracted.wayCount == graph.wayCount
      invariant Between(g, junctions, contracted.nodes, spacing, walked, pos, None)
      invariant Complete(g, from, walked)
    {
      var start :| start in todo;
      ghost var before := walked;
      JunctionIsNode(g, junctions, start);
      walked, pos := WalkFrom(g, contracted, junctions, walked, pos, start, spacing);
      CompleteWith(g, from, before, walked, start);
      todo, from := todo - {start}, from + {start};
    }
    assert from == junctions;
    FinishedIsContraction(g, junctions, contracted.nodes, spacing, walked, pos);
  }

  lemma JunctionIsNode(g: Adjacency, J: set<NodeId>, x: NodeId)
    requires Base(g, J) && x in J
    ensures x in g
  {
  }
}
