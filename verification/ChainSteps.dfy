/** The three moves of the contraction: opening a segment, lengthening it, closing it. */
module ChainSteps {
  import opened Options
  import opened Geometry
  import opened Walks
  import opened RoadGraphs
  import opened Junctions
  import opened Sums
  import opened Chains

  function Both(a: NodeId, b: NodeId): set<Pair> {
    {(a, b), (b, a)}
  }

  // ---------- walking one more edge ----------

  /** An edge is walked only once, so its far end is a junction or has not been met. */
  lemma FarEnd(g: Adjacency, J: set<NodeId>, walked: set<Pair>, pos: map<NodeId, Pos>, skip: Option<NodeId>, x: NodeId, e: Edge)
    requires Base(g, J) && WalkedOk(g, J, walked, skip) && Ended(g, J, walked, pos, skip)
    requires e in Neighbours(g, x) && (x, e.target) !in walked && (skip == None || skip == Some(x))
    ensures e.target in J || (e.target !in pos && forall y :: (e.target, y) !in walked)
  {
    var z := e.target;
    EdgeLengthUnique(g, x, e);
    var back :| back in Neighbours(g, z) && back.target == x;
    BothWays(g, J, walked, skip, x, z);
    assert !AllWalked(g, walked, z);
  }

  lemma BothWays(g: Adjacency, J: set<NodeId>, walked: set<Pair>, skip: Option<NodeId>, x: NodeId, y: NodeId)
    requires WalkedOk(g, J, walked, skip)
    ensures (x, y) in walked <==> (y, x) in walked
  {
    assert (x, y) in walked ==> PairOk(g, walked, x, y);
    assert (y, x) in walked ==> PairOk(g, walked, y, x);
  }

  lemma WalkPair(g: Adjacency, J: set<NodeId>, walked: set<Pair>, skip: Option<NodeId>, x: NodeId, e: Edge)
    requires Base(g, J) && WalkedOk(g, J, walked, skip)
    requires e in Neighbours(g, x) && (x, e.target) !in walked && (skip == None || skip == Some(x)) && !Twin(g, x)
    requires x in J || AllWalked(g, walked + Both(x, e.target), x)
    ensures WalkedOk(g, J, walked + Both(x, e.target), Some(e.target))
    ensures (e.target, x) !in walked
    ensures PairSum(g, walked + Both(x, e.target)) == PairSum(g, walked) + 2.0 * e.length
  {
    var more := walked + Both(x, e.target);
    EdgeLengthUnique(g, x, e);
    if Twin(g, e.target) {
      TwinNeighbour(g, x, e.target);
    }
    BothWays(g, J, walked, skip, x, e.target);
    forall u, v | (u, v) in more
      ensures PairOk(g, more, u, v)
      ensures u in J || u == e.target || AllWalked(g, more, u)
    {
      if (u, v) in walked {
        assert PairOk(g, walked, u, v);
      }
    }
    PairSumBoth(g, walked, x, e);
  }

  // ---------- opening ----------

  lemma OpenSegment(g: Adjacency, J: set<NodeId>, c: Adjacency, spacing: real, walked: set<Pair>, pos: map<NodeId, Pos>, skip: Option<NodeId>, anchor: NodeId, e: Edge)
    requires Base(g, J) && Between(g, J, c, spacing, walked, pos, skip)
    requires skip == None || skip == Some(anchor)
    requires e in Neighbours(g, anchor) && (anchor, e.target) !in walked && !Twin(g, anchor)
    requires anchor in J || (anchor in c && AllWalked(g, walked + Both(anchor, e.target), anchor))
    ensures Midway(g, J, c, spacing, walked + Both(anchor, e.target), walked, pos, Open(anchor, map[], anchor, e.target, e.length))
  {
    hide OffsOk, HasFullWalk, WalkOfLength, PosOk, Built, StepsDone, PairSum, Total;
    var o := Open(anchor, map[], anchor, e.target, e.length);
    var more := walked + Both(anchor, e.target);
    assert WalkedOk(g, J, more, Some(e.target)) && Total(c) + 2.0 * o.length == PairSum(g, more) by {
      WalkPair(g, J, walked, skip, anchor, e);
    }
    assert Ended(g, J, more, pos, None) by {
      MoreEnded(g, J, walked, pos, skip, anchor, e);
    }
    assert OpenOk(g, J, c, spacing, more, pos, o) by {
      FarEnd(g, J, walked, pos, skip, anchor, e);
      StartOpen(g, J, c, spacing, walked, pos, anchor, e);
    }
    assert PairsOpen(g, more, walked, o);
  }

  /** Nodes whose edges were all walked stay so, and the node walked from joins them. */
  lemma MoreEnded(g: Adjacency, J: set<NodeId>, walked: set<Pair>, pos: map<NodeId, Pos>, skip: Option<NodeId>, x: NodeId, e: Edge)
    requires Ended(g, J, walked, pos, skip) && (skip == None || skip == Some(x))
    requires x in J || AllWalked(g, walked + Both(x, e.target), x)
    ensures Ended(g, J, walked + Both(x, e.target), pos, None)
  {
  }

  lemma StartOpen(g: Adjacency, J: set<NodeId>, c: Adjacency, spacing: real, walked: set<Pair>, pos: map<NodeId, Pos>, anchor: NodeId, e: Edge)
    requires WellFormed(g) && e in Neighbours(g, anchor)
    requires anchor in J || (anchor in c && AllWalked(g, walked + Both(anchor, e.target), anchor))
    requires e.target in J || (e.target !in pos && forall y :: (e.target, y) !in walked)
    ensures OpenOk(g, J, c, spacing, walked + Both(anchor, e.target), pos, Open(anchor, map[], anchor, e.target, e.length))
  {
    EdgeLengthUnique(g, anchor, e);
    WalkAlong(g, anchor, e);
    StartWalk(g, anchor, e);
  }

  lemma StartWalk(g: Adjacency, anchor: NodeId, e: Edge)
    requires e in Neighbours(g, anchor)
    ensures HasFullWalk(g, Open(anchor, map[], anchor, e.target, e.length))
  {
    StepWalk(g, anchor, e);
    assert [e][..0] == [];
    assert FullWalk(g, Open(anchor, map[], anchor, e.target, e.length), [e]);
  }

  lemma WalkAlong(g: Adjacency, x: NodeId, e: Edge)
    requires e in Neighbours(g, x)
    ensures WalkOfLength(g, x, e.target, e.length)
  {
    StepWalk(g, x, e);
  }

  // ---------- lengthening ----------

  function Longer(o: Open, e: Edge): Open {
    Open(o.anchor, o.offs[o.current := o.length], o.current, e.target, o.length + e.length)
  }

  lemma Lengthen(g: Adjacency, J: set<NodeId>, c: Adjacency, spacing: real, walked: set<Pair>, done: set<Pair>, pos: map<NodeId, Pos>, o: Open, e: Edge)
    requires Base(g, J) && Midway(g, J, c, spacing, walked, done, pos, o)
    requires o.current !in J && o.length < spacing
    requires e in Neighbours(g, o.current) && e.target != o.prev
    requires forall f :: f in Neighbours(g, o.current) ==> f.target == o.prev || f.target == e.target
    ensures (o.current, e.target) !in walked
    ensures Midway(g, J, c, spacing, walked + Both(o.current, e.target), done, pos, Longer(o, e))
  {
    hide OffsOk, HasFullWalk, WalkOfLength, PosOk, Built, StepsDone, PairSum, Total;
    var more, n := walked + Both(o.current, e.target), Longer(o, e);
    NotPassed(g, J, spacing, walked, pos, o);
    assert PairOk(g, walked, o.prev, o.current);
    assert AllWalked(g, more, o.current);
    assert WalkedOk(g, J, more, Some(e.target)) && Total(c) + 2.0 * n.length == PairSum(g, more) by {
      WalkPair(g, J, walked, Some(o.current), o.current, e);
    }
    assert Ended(g, J, more, pos, None) by {
      MoreEnded(g, J, walked, pos, Some(o.current), o.current, e);
    }
    assert OpenOk(g, J, c, spacing, more, pos, n) by {
      FarEnd(g, J, walked, pos, Some(o.current), o.current, e);
      LongerOpen(g, J, c, spacing, walked, pos, o, e);
    }
    assert PairsOpen(g, more, done, n) by {
      LastEdge(g, o.prev, o.current);
      LongerPairs(g, walked, done, o, e);
    }
  }

  lemma NotPassed(g: Adjacency, J: set<NodeId>, spacing: real, walked: set<Pair>, pos: map<NodeId, Pos>, o: Open)
    requires OffsOk(g, J, spacing, walked, pos, o)
    ensures o.current !in o.offs
  {
    assert o.current in o.offs ==> OffOk(g, J, spacing, walked, pos, o, o.current);
  }

  lemma LongerOpen(g: Adjacency, J: set<NodeId>, c: Adjacency, spacing: real, walked: set<Pair>, pos: map<NodeId, Pos>, o: Open, e: Edge)
    requires Base(g, J) && OpenOk(g, J, c, spacing, walked, pos, o)
    requires o.current !in J && o.length < spacing && o.current !in o.offs
    requires e in Neighbours(g, o.current) && e.target != o.prev && o.current != o.anchor
    requires AllWalked(g, walked + Both(o.current, e.target), o.current)
    requires e.target in J || (e.target !in pos && forall y :: (e.target, y) !in walked)
    ensures OpenOk(g, J, c, spacing, walked + Both(o.current, e.target), pos, Longer(o, e))
  {
    var more, n := walked + Both(o.current, e.target), Longer(o, e);
    assert OffsOk(g, J, spacing, more, pos, n) by {
      LastEdge(g, o.prev, o.current);
      LengthNonNegative(g, J, spacing, walked, pos, o);
      FarEndIsNew(g, J, spacing, walked, pos, o, e);
      LongerOffs(g, J, spacing, walked, pos, o, e);
    }
    assert n.current in J || Fresh(more, pos, n) by {
      FarEndIsNew(g, J, spacing, walked, pos, o, e);
    }
    assert WalkOfLength(g, n.anchor, n.current, n.length) by {
      WalkOfLengthStep(g, o.anchor, o.current, o.length, e);
    }
    assert HasFullWalk(g, n) by {
      LongerWalk(g, o, e);
    }
    assert HasEdge(g, n.prev, n.current) && n.length == n.Off(n.prev) + EdgeLength(g, n.prev, n.current) by {
      EdgeLengthUnique(g, o.current, e);
    }
  }

  lemma LongerWalk(g: Adjacency, o: Open, e: Edge)
    requires o.On(o.prev) && HasFullWalk(g, o) && o.current !in o.offs && o.current != o.anchor
    requires e in Neighbours(g, o.current) && e.target != o.prev
    ensures HasFullWalk(g, Longer(o, e))
  {
    var p :| FullWalk(g, o, p);
    var q := p + [e];
    WalkEnds(g, o.anchor, p, o.current);
    LongerInner(o.anchor, p, e);
    LongerNoTurn(o.anchor, p, e);
    StepWalk(g, o.current, e);
    hide NoTurn, NodeAt, Inner, IsWalk, Length;
    WalkConcat(g, o.anchor, p, o.current, [e], e.target);
    assert FullWalk(g, Longer(o, e), q);
  }

  lemma LongerInner(a: NodeId, p: seq<Edge>, e: Edge)
    requires p != []
    ensures Inner(p + [e]) == Inner(p) + {p[|p| - 1].target} && NodeAt(a, p + [e], |p|) == p[|p| - 1].target
    ensures (p + [e])[..|p + [e]| - 1] == p
  {
    assert (p + [e])[..|p + [e]| - 1] == p;
    assert p == p[..|p| - 1] + [p[|p| - 1]];
  }

  lemma LongerNoTurn(a: NodeId, p: seq<Edge>, e: Edge)
    requires p != [] && NoTurn(a, p) && e.target != NodeAt(a, p, |p| - 1)
    ensures NoTurn(a, p + [e])
  {
    var q := p + [e];
    forall i | 0 <= i && i + 2 <= |q|
      ensures NodeAt(a, q, i + 2) != NodeAt(a, q, i)
    {
      assert i + 2 <= |p| ==> NodeAt(a, p, i + 2) != NodeAt(a, p, i);
      assert i <= |p| ==> NodeAt(a, q, i) == NodeAt(a, p, i);
    }
  }

  lemma {:induction false} WalkEnds(g: Adjacency, a: NodeId, p: seq<Edge>, b: NodeId)
    requires IsWalk(g, a, p, b) && p != []
    ensures p[|p| - 1].target == b
    decreases |p|
  {
    if |p| > 1 {
      WalkEnds(g, p[0].target, p[1..], b);
    }
  }

  lemma LastEdge(g: Adjacency, x: NodeId, y: NodeId)
    requires WellFormed(g) && HasEdge(g, x, y)
    ensures HasEdge(g, y, x) && EdgeLength(g, x, y) == EdgeLength(g, y, x) >= 0.0
  {
    var e :| e in Neighbours(g, x) && e.target == y;
    EdgeLengthUnique(g, x, e);
  }

  /** The new far end is not among the nodes passed, nor the anchor unless that is a junction. */
  lemma FarEndIsNew(g: Adjacency, J: set<NodeId>, spacing: real, walked: set<Pair>, pos: map<NodeId, Pos>, o: Open, e: Edge)
    requires Base(g, J) && OffsOk(g, J, spacing, walked, pos, o)
    requires e.target in J || forall y :: (e.target, y) !in walked
    requires o.anchor in g && (o.anchor !in J ==> AllWalked(g, walked, o.anchor))
    ensures e.target !in o.offs
    ensures e.target in J || e.target != o.anchor
  {
    if e.target in o.offs {
      assert OffOk(g, J, spacing, walked, pos, o, e.target);
      HasTwoEdges(g, J, walked, e.target);
    }
    if o.anchor !in J {
      HasTwoEdges(g, J, walked, o.anchor);
    }
  }

  lemma HasTwoEdges(g: Adjacency, J: set<NodeId>, walked: set<Pair>, x: NodeId)
    requires Base(g, J) && x in g && x !in J && AllWalked(g, walked, x)
    ensures exists y :: (x, y) in walked
  {
    assert g[x][0] in g[x];
    assert (x, g[x][0].target) in walked;
  }

  lemma LengthNonNegative(g: Adjacency, J: set<NodeId>, spacing: real, walked: set<Pair>, pos: map<NodeId, Pos>, o: Open)
    requires OffsOk(g, J, spacing, walked, pos, o)
    requires o.On(o.prev) && HasEdge(g, o.prev, o.current) && EdgeLength(g, o.prev, o.current) >= 0.0
    requires o.length == o.Off(o.prev) + EdgeLength(g, o.prev, o.current)
    ensures o.Off(o.prev) >= 0.0 && o.length >= 0.0
  {
    assert o.prev in o.offs ==> OffOk(g, J, spacing, walked, pos, o, o.prev);
  }

  lemma LongerOffs(g: Adjacency, J: set<NodeId>, spacing: real, walked: set<Pair>, pos: map<NodeId, Pos>, o: Open, e: Edge)
    requires OffsOk(g, J, spacing, walked, pos, o)
    requires o.current in g && o.current !in J && o.current !in pos && o.current != o.anchor
    requires 0.0 <= o.length < spacing && WalkOfLength(g, o.anchor, o.current, o.length)
    requires AllWalked(g, walked + Both(o.current, e.target), o.current)
    requires e.target != o.current && e.target !in o.offs
    ensures OffsOk(g, J, spacing, walked + Both(o.current, e.target), pos, Longer(o, e))
  {
    var more, n := walked + Both(o.current, e.target), Longer(o, e);
    forall x | x in n.offs
      ensures OffOk(g, J, spacing, more, pos, n, x)
    {
      if x != o.current {
        assert OffOk(g, J, spacing, walked, pos, o, x);
      }
    }
  }

  lemma LongerPairs(g: Adjacency, walked: set<Pair>, done: set<Pair>, o: Open, e: Edge)
    requires PairsOpen(g, walked, done, o)
    requires o.On(o.prev) && o.current !in o.offs && o.current != o.anchor
    requires HasEdge(g, o.prev, o.current) && HasEdge(g, o.current, o.prev)
    requires EdgeLength(g, o.prev, o.current) == EdgeLength(g, o.current, o.prev) >= 0.0
    requires o.length == o.Off(o.prev) + EdgeLength(g, o.prev, o.current)
    ensures PairsOpen(g, walked + Both(o.current, e.target), done, Longer(o, e))
  {
    var more, n := walked + Both(o.current, e.target), Longer(o, e);
    forall x, y | (x, y) in more && (x, y) !in done
      ensures n.LastPair(x, y) || OpenPair(g, n, x, y)
    {
      if (x, y) in walked && !o.LastPair(x, y) {
        assert OpenPair(g, o, x, y);
      }
    }
  }

  // ---------- closing ----------

  /** The open nodes get their positions between the two ends of the segment. */
  ghost function Settle(pos: map<NodeId, Pos>, o: Open): map<NodeId, Pos> {
    (pos + (map x | x in o.offs :: Pos(o.anchor, o.offs[x], o.current, o.length - o.offs[x])))
      [o.anchor := Kept(o.anchor)][o.current := Kept(o.current)]
  }

  /** Segments are only ever added, so what could be reached still can. */
  ghost predicate Extends(c: Adjacency, c': Adjacency) {
    c.Keys <= c'.Keys && forall x, e :: e in Neighbours(c, x) ==> e in Neighbours(c', x)
  }

  lemma StepExtends(c: Adjacency, c': Adjacency, P: Pos, Q: Pos, w: real)
    requires Extends(c, c') && LocalStep(c, P, Q, w)
    ensures LocalStep(c', P, Q, w)
  {
  }

  lemma SegmentExtends(c: Adjacency, a: NodeId, b: NodeId, length: real, wayId: Option<string>, tags: map<string, string>)
    ensures var c' := WithSegment(c, a, b, length, wayId, tags);
      && Extends(c, c') && c'.Keys == c.Keys + {a, b}
      && Edge(b, length, wayId, tags) in Neighbours(c', a) && Edge(a, length, wayId, tags) in Neighbours(c', b)
      && HasSegment(c', a, b, length) && HasSegment(c', b, a, length)
      && Total(c') == Total(c) + 2.0 * length
  {
    WithSegmentEdges(c, a, b, length, wayId, tags);
    TotalWithSegment(c, a, b, length, wayId, tags);
  }

  lemma CloseSegment(g: Adjacency, J: set<NodeId>, c: Adjacency, spacing: real, walked: set<Pair>, done: set<Pair>, pos: map<NodeId, Pos>, o: Open, wayId: Option<string>, tags: map<string, string>)
    requires Base(g, J) && Midway(g, J, c, spacing, walked, done, pos, o)
    requires o.current in J || Spur(g, o.current) || o.length >= spacing
    ensures Between(g, J, WithSegment(c, o.anchor, o.current, o.length, wayId, tags), spacing, walked, Settle(pos, o), Some(o.current))
  {
    hide WithSegment, Settle, WellFormed, PosOk, Ended, Built, StepsDone, PairsOpen, OffsOk, HasFullWalk;
    var c' := WithSegment(c, o.anchor, o.current, o.length, wayId, tags);
    var pos' := Settle(pos, o);
    assert PosOk(g, J, c', spacing, pos') by {
      SegmentExtends(c, o.anchor, o.current, o.length, wayId, tags);
      ClosePos(g, J, c, spacing, walked, pos, o, c');
    }
    assert Ended(g, J, walked, pos', Some(o.current)) by {
      CloseEnded(g, J, c, spacing, walked, pos, o);
    }
    assert Built(g, J, c', spacing, pos') by {
      CloseBuilt(g, J, c, spacing, walked, pos, o, wayId, tags);
    }
    assert StepsDone(g, c', pos', walked) by {
      SegmentExtends(c, o.anchor, o.current, o.length, wayId, tags);
      SettledAt(g, J, c, spacing, walked, pos, o);
      LastEdge(g, o.prev, o.current);
      LengthNonNegative(g, J, spacing, walked, pos, o);
      CloseSteps(g, c, walked, done, pos, o, c', pos');
    }
    assert Total(c') == PairSum(g, walked) by {
      SegmentExtends(c, o.anchor, o.current, o.length, wayId, tags);
    }
  }

  lemma ClosePos(g: Adjacency, J: set<NodeId>, c: Adjacency, spacing: real, walked: set<Pair>, pos: map<NodeId, Pos>, o: Open, c': Adjacency)
    requires WellFormed(g) && PosOk(g, J, c, spacing, pos) && OpenOk(g, J, c, spacing, walked, pos, o)
    requires c'.Keys == c.Keys + {o.anchor, o.current}
    ensures PosOk(g, J, c', spacing, Settle(pos, o))
  {
    var pos' := Settle(pos, o);
    HasEdgeSymmetric(g, o.prev, o.current);
    forall x | x in pos'
      ensures PosAt(g, J, c', spacing, x, pos'[x])
    {
      if x in o.offs {
        assert OffOk(g, J, spacing, walked, pos, o, x);
        assert x !in c;
        WalkOfLengthBack(g, o.anchor, x, o.offs[x]);
      } else if x in pos {
        assert PosAt(g, J, c, spacing, x, pos[x]);
      }
    }
  }

  lemma CloseEnded(g: Adjacency, J: set<NodeId>, c: Adjacency, spacing: real, walked: set<Pair>, pos: map<NodeId, Pos>, o: Open)
    requires Ended(g, J, walked, pos, None) && OpenOk(g, J, c, spacing, walked, pos, o)
    ensures Ended(g, J, walked, Settle(pos, o), Some(o.current))
  {
    forall x | x in Settle(pos, o)
      ensures x in J || x == o.current || AllWalked(g, walked, x)
    {
      assert x in o.offs ==> OffOk(g, J, spacing, walked, pos, o, x);
    }
  }

  /** The open segment's own walk is a chain. */
  lemma OpenIsChain(g: Adjacency, J: set<NodeId>, spacing: real, walked: set<Pair>, pos: map<NodeId, Pos>, o: Open) returns (p: seq<Edge>)
    requires o.On(o.prev) && HasFullWalk(g, o) && OffsOk(g, J, spacing, walked, pos, o)
    ensures ChainWalk(g, o.offs.Keys, spacing, o.anchor, p, o.current) && Length(p) == o.length && Inner(p) == o.offs.Keys
  {
    p :| FullWalk(g, o, p);
    if |p| > 1 {
      assert p[|p| - 2] in p[..|p| - 1];
      assert o.prev in o.offs;
      assert OffOk(g, J, spacing, walked, pos, o, o.prev);
    }
  }

  /** More nodes have been removed: those passed by the open segment. */
  lemma RemovedGrows(g: Adjacency, J: set<NodeId>, c: Adjacency, spacing: real, walked: set<Pair>, pos: map<NodeId, Pos>, o: Open, c': Adjacency)
    requires PosOk(g, J, c, spacing, pos) && OpenOk(g, J, c, spacing, walked, pos, o)
    requires c'.Keys == c.Keys + {o.anchor, o.current}
    ensures Removed(c', Settle(pos, o)) == Removed(c, pos) + o.offs.Keys
  {
    hide WalkOfLength, HasFullWalk, HasEdge, AllWalked, Removed;
    var pos' := Settle(pos, o);
    forall x | x in o.offs
      ensures x !in pos && x != o.anchor && x != o.current
    {
      assert OffOk(g, J, spacing, walked, pos, o, x);
    }
    forall x | x in pos && x !in c
      ensures x !in J
    {
      assert PosAt(g, J, c, spacing, x, pos[x]);
    }
    SameRemoved(c, c', pos, pos', o);
  }

  lemma SameRemoved(c: Adjacency, c': Adjacency, pos: map<NodeId, Pos>, pos': map<NodeId, Pos>, o: Open)
    requires c.Keys <= pos.Keys && c'.Keys == c.Keys + {o.anchor, o.current}
    requires pos'.Keys == pos.Keys + o.offs.Keys + {o.anchor, o.current}
    requires forall x :: x in o.offs ==> x !in pos && x != o.anchor && x != o.current
    requires forall x :: x in pos && x !in c ==> x != o.anchor && x != o.current
    ensures Removed(c', pos') == Removed(c, pos) + o.offs.Keys
  {
  }

  lemma CloseBuilt(g: Adjacency, J: set<NodeId>, c: Adjacency, spacing: real, walked: set<Pair>, pos: map<NodeId, Pos>, o: Open, wayId: Option<string>, tags: map<string, string>)
    requires WellFormed(g) && PosOk(g, J, c, spacing, pos) && OpenOk(g, J, c, spacing, walked, pos, o)
    requires Built(g, J, c, spacing, pos)
    requires o.current in J || Spur(g, o.current) || o.length >= spacing
    ensures Built(g, J, WithSegment(c, o.anchor, o.current, o.length, wayId, tags), spacing, Settle(pos, o))
  {
    hide WithSegment, Settle, PosOk, WellFormed, SegmentsOk, OnChain, Needed, ChainWalk, OffsOk, Fresh;
    var c' := WithSegment(c, o.anchor, o.current, o.length, wayId, tags);
    var was, all := Removed(c, pos), Removed(c, pos) + o.offs.Keys;
    SegmentExtends(c, o.anchor, o.current, o.length, wayId, tags);
    RemovedGrows(g, J, c, spacing, walked, pos, o, c');
    var p := OpenIsChain(g, J, spacing, walked, pos, o);
    assert SegmentsOk(g, c', all, spacing) by {
      ChainGrows(g, o.offs.Keys, all, spacing, o.anchor, p, o.current);
      CloseSegments(g, c, was, all, spacing, o.anchor, o.current, p, wayId, tags);
    }
    forall x | x in all
      ensures OnChain(g, c', all, spacing, x)
    {
      if x in was {
        OnChainGrows(g, c, c', was, all, spacing, x);
      } else {
        ChainGrows(g, o.offs.Keys, all, spacing, o.anchor, p, o.current);
        NowOnChain(g, c', all, spacing, o.anchor, p, o.current, x);
      }
    }
    forall x | x in c'
      ensures Needed(g, J, c', spacing, x)
    {
      StillNeeded(g, J, c, c', spacing, x, o);
    }
  }

  lemma ChainGrows(g: Adjacency, removed: set<NodeId>, more: set<NodeId>, spacing: real, a: NodeId, p: seq<Edge>, b: NodeId)
    requires ChainWalk(g, removed, spacing, a, p, b) && removed <= more
    ensures ChainWalk(g, more, spacing, a, p, b)
  {
  }

  lemma OnChainGrows(g: Adjacency, c: Adjacency, c': Adjacency, removed: set<NodeId>, more: set<NodeId>, spacing: real, x: NodeId)
    requires OnChain(g, c, removed, spacing, x) && Extends(c, c') && removed <= more
    ensures OnChain(g, c', more, spacing, x)
  {
    var a, p, b :| Merged(g, c, removed, spacing, a, p, b) && x in Inner(p);
    ChainGrows(g, removed, more, spacing, a, p, b);
    assert Merged(g, c', more, spacing, a, p, b);
  }

  lemma NowOnChain(g: Adjacency, c: Adjacency, removed: set<NodeId>, spacing: real, a: NodeId, p: seq<Edge>, b: NodeId, x: NodeId)
    requires ChainWalk(g, removed, spacing, a, p, b) && HasSegment(c, a, b, Length(p)) && x in Inner(p)
    ensures OnChain(g, c, removed, spacing, x)
  {
    assert Merged(g, c, removed, spacing, a, p, b);
  }

  lemma StillNeeded(g: Adjacency, J: set<NodeId>, c: Adjacency, c': Adjacency, spacing: real, x: NodeId, o: Open)
    requires Extends(c, c') && c'.Keys == c.Keys + {o.anchor, o.current} && x in c'
    requires forall y :: y in c ==> Needed(g, J, c, spacing, y)
    requires o.anchor in J || o.anchor in c
    requires o.current in J || Spur(g, o.current) || o.length >= spacing
    requires HasSegment(c', o.current, o.anchor, o.length)
    ensures Needed(g, J, c', spacing, x)
  {
    if x in c {
      assert Needed(g, J, c, spacing, x);
    }
  }

  lemma CloseSegments(g: Adjacency, c: Adjacency, removed: set<NodeId>, more: set<NodeId>, spacing: real, a: NodeId, b: NodeId, p: seq<Edge>, wayId: Option<string>, tags: map<string, string>)
    requires WellFormed(g) && SegmentsOk(g, c, removed, spacing) && removed <= more
    requires ChainWalk(g, more, spacing, a, p, b)
    ensures SegmentsOk(g, WithSegment(c, a, b, Length(p), wayId, tags), more, spacing)
  {
    var c' := WithSegment(c, a, b, Length(p), wayId, tags);
    WithSegmentEdges(c, a, b, Length(p), wayId, tags);
    hide ChainWalk, WithSegment, WellFormed;
    assert WalkOfLength(g, a, b, Length(p)) && WalkOfLength(g, b, a, Length(p)) by {
      ChainIsWalk(g, more, spacing, a, p, b);
    }
    assert HasChain(g, more, spacing, a, b, Length(p));
    forall x, e | x in c' && e in c'[x]
      ensures SegmentOk(g, c', more, spacing, x, e)
    {
      if e in Neighbours(c, x) {
        assert SegmentOk(g, c, removed, spacing, x, e);
        SegmentGrows(g, c, c', removed, more, spacing, x, e);
      }
    }
  }

  lemma ChainIsWalk(g: Adjacency, removed: set<NodeId>, spacing: real, a: NodeId, p: seq<Edge>, b: NodeId)
    requires WellFormed(g) && ChainWalk(g, removed, spacing, a, p, b)
    ensures WalkOfLength(g, a, b, Length(p)) && WalkOfLength(g, b, a, Length(p))
  {
    WalkOfLengthBack(g, a, b, Length(p));
  }

  lemma SegmentGrows(g: Adjacency, c: Adjacency, c': Adjacency, removed: set<NodeId>, more: set<NodeId>, spacing: real, a: NodeId, e: Edge)
    requires SegmentOk(g, c, removed, spacing, a, e) && removed <= more && c.Keys <= c'.Keys
    ensures SegmentOk(g, c', more, spacing, a, e)
  {
    if HasChain(g, removed, spacing, a, e.target, e.length) {
      var p :| ChainWalk(g, removed, spacing, a, p, e.target) && Length(p) == e.length;
      ChainGrows(g, removed, more, spacing, a, p, e.target);
    } else {
      var p :| ChainWalk(g, removed, spacing, e.target, p, a) && Length(p) == e.length;
      ChainGrows(g, removed, more, spacing, e.target, p, a);
    }
  }

  /** Inside the closed segment, and at both its ends, every original edge is a local step. */
  lemma OpenStep(c': Adjacency, o: Open, P: Pos, Q: Pos, x: NodeId, y: NodeId, w: real)
    requires o.On(x) && o.On(y) && o.Off(y) <= o.Off(x) + w && o.Off(x) <= o.Off(y) + w
    requires P == OpenPos(o, x) && Q == OpenPos(o, y)
    requires exists e :: e in Neighbours(c', o.current) && e.target == o.anchor && e.length <= o.length
    ensures LocalStep(c', P, Q, w)
  {
  }

  ghost function OpenPos(o: Open, x: NodeId): Pos
    requires o.On(x)
  {
    if x == o.anchor then Kept(x) else Pos(o.anchor, o.offs[x], o.current, o.length - o.offs[x])
  }

  lemma LastStep(c': Adjacency, o: Open, P: Pos, w: real)
    requires o.On(o.prev) && o.length == o.Off(o.prev) + w && w >= 0.0 && o.Off(o.prev) >= 0.0
    requires P == OpenPos(o, o.prev)
    requires exists e :: e in Neighbours(c', o.current) && e.target == o.anchor && e.length == o.length
    requires exists e :: e in Neighbours(c', o.anchor) && e.target == o.current && e.length == o.length
    ensures LocalStep(c', P, Kept(o.current), w) && LocalStep(c', Kept(o.current), P, w)
  {
  }

  /** Old positions stand, and the open nodes stand where the segment puts them. */
  ghost predicate Settled(pos: map<NodeId, Pos>, pos': map<NodeId, Pos>, o: Open) {
    && (forall x :: x in pos ==> x in pos' && pos'[x] == pos[x])
    && (forall x :: o.On(x) ==> x in pos' && pos'[x] == OpenPos(o, x))
    && o.current in pos' && pos'[o.current] == Kept(o.current)
  }

  lemma SettledAt(g: Adjacency, J: set<NodeId>, c: Adjacency, spacing: real, walked: set<Pair>, pos: map<NodeId, Pos>, o: Open)
    requires PosOk(g, J, c, spacing, pos) && OpenOk(g, J, c, spacing, walked, pos, o)
    ensures Settled(pos, Settle(pos, o), o)
  {
    hide WalkOfLength, HasFullWalk, AllWalked, HasEdge, EdgeLength;
    var pos' := Settle(pos, o);
    forall x | x in pos
      ensures x in pos' && pos'[x] == pos[x]
    {
      assert PosAt(g, J, c, spacing, x, pos[x]);
    }
    forall x | o.On(x)
      ensures x in pos' && pos'[x] == OpenPos(o, x)
    {
      assert x in o.offs ==> OffOk(g, J, spacing, walked, pos, o, x);
    }
  }

  lemma CloseSteps(g: Adjacency, c: Adjacency, walked: set<Pair>, done: set<Pair>, pos: map<NodeId, Pos>, o: Open, c': Adjacency, pos': map<NodeId, Pos>)
    requires StepsDone(g, c, pos, done) && PairsOpen(g, walked, done, o)
    requires Extends(c, c') && Settled(pos, pos', o)
    requires o.On(o.prev) && HasEdge(g, o.prev, o.current) && HasEdge(g, o.current, o.prev)
    requires EdgeLength(g, o.prev, o.current) == EdgeLength(g, o.current, o.prev) >= 0.0
    requires o.length == o.Off(o.prev) + EdgeLength(g, o.prev, o.current) && o.Off(o.prev) >= 0.0
    requires exists e :: e in Neighbours(c', o.current) && e.target == o.anchor && e.length == o.length
    requires exists e :: e in Neighbours(c', o.anchor) && e.target == o.current && e.length == o.length
    ensures StepsDone(g, c', pos', walked)
  {
    forall x, y | (x, y) in walked
      ensures StepDone(g, c', pos', x, y)
    {
      if (x, y) in done {
        assert StepDone(g, c, pos, x, y);
        StepExtends(c, c', pos[x], pos[y], EdgeLength(g, x, y));
      } else if o.LastPair(x, y) {
        LastStep(c', o, OpenPos(o, o.prev), EdgeLength(g, o.prev, o.current));
      } else {
        assert OpenPair(g, o, x, y);
        OpenStep(c', o, OpenPos(o, x), OpenPos(o, y), x, y, EdgeLength(g, x, y));
      }
    }
  }
}
