/** What is known while chains of shape points are being merged.

    Every node met so far has a position: a kept node stands at itself, a removed
    one between two kept nodes at a known distance from each. The whole argument
    rests on one local fact per original edge (`LocalStep`): whoever can be reached
    through the position of one end can be reached through that of the other end,
    at no more than the length of the edge. */
module Chains {
  import opened Options
  import opened Geometry
  import opened Walks
  import opened RoadGraphs
  import opened Junctions
  import opened Sums

  datatype Pos = Pos(a: NodeId, da: real, b: NodeId, db: real)

  function Kept(x: NodeId): Pos {
    Pos(x, 0.0, x, 0.0)
  }

  /** In the contracted graph: stay, or take one segment. */
  ghost predicate Hop(c: Adjacency, p: NodeId, q: NodeId, budget: real) {
    (p == q && budget >= 0.0) || exists e :: e in Neighbours(c, p) && e.target == q && e.length <= budget
  }

  ghost predicate StepFrom(c: Adjacency, p: NodeId, d: real, Q: Pos, w: real) {
    Hop(c, p, Q.a, w + d - Q.da) || Hop(c, p, Q.b, w + d - Q.db)
  }

  ghost predicate LocalStep(c: Adjacency, P: Pos, Q: Pos, w: real) {
    StepFrom(c, P.a, P.da, Q, w) && StepFrom(c, P.b, P.db, Q, w)
  }

  // ---------- the state between chains ----------

  ghost predicate AllWalked(g: Adjacency, walked: set<Pair>, x: NodeId) {
    forall e :: e in Neighbours(g, x) ==> (x, e.target) in walked
  }

  ghost predicate PairOk(g: Adjacency, walked: set<Pair>, x: NodeId, y: NodeId) {
    HasEdge(g, x, y) && (y, x) in walked && !Twin(g, x) && !Twin(g, y)
  }

  /** A chain, once entered, has been walked to its end, except at `skip`. */
  ghost predicate WalkedOk(g: Adjacency, J: set<NodeId>, walked: set<Pair>, skip: Option<NodeId>) {
    && (forall x, y :: (x, y) in walked ==> PairOk(g, walked, x, y))
    && (forall x, y :: (x, y) in walked ==> x in J || Some(x) == skip || AllWalked(g, walked, x))
  }

  /** A removed node is no junction and less than the spacing away from a kept one. */
  ghost predicate PosAt(g: Adjacency, J: set<NodeId>, c: Adjacency, spacing: real, x: NodeId, P: Pos) {
    && x in g
    && (if x in c then P == Kept(x)
        else x !in J && P.a in c && P.b in c && 0.0 <= P.da < spacing && WalkOfLength(g, x, P.a, P.da))
  }

  ghost predicate PosOk(g: Adjacency, J: set<NodeId>, c: Adjacency, spacing: real, pos: map<NodeId, Pos>) {
    c.Keys <= pos.Keys && forall x :: x in pos ==> PosAt(g, J, c, spacing, x, pos[x])
  }

  ghost predicate Ended(g: Adjacency, J: set<NodeId>, walked: set<Pair>, pos: map<NodeId, Pos>, skip: Option<NodeId>) {
    forall x :: x in pos ==> x in J || Some(x) == skip || AllWalked(g, walked, x)
  }

  // ---------- the segments ----------

  /** The node reached after the first `i` edges of a walk from `a`. */
  ghost function NodeAt(a: NodeId, p: seq<Edge>, i: int): NodeId
    requires 0 <= i <= |p|
  {
    if i == 0 then a else p[i - 1].target
  }

  /** The nodes of a walk but for its two ends. */
  ghost function Inner(p: seq<Edge>): set<NodeId> {
    if p == [] then {} else set e | e in p[..|p| - 1] :: e.target
  }

  ghost predicate NoTurn(a: NodeId, p: seq<Edge>) {
    forall i :: 0 <= i && i + 2 <= |p| ==> NodeAt(a, p, i + 2) != NodeAt(a, p, i)
  }

  /** A walk that never turns back, past removed nodes only, and cut at the first
      chance: without its last edge it is shorter than the spacing. */
  ghost predicate ChainWalk(g: Adjacency, removed: set<NodeId>, spacing: real, a: NodeId, p: seq<Edge>, b: NodeId) {
    && p != [] && IsWalk(g, a, p, b) && NoTurn(a, p) && Inner(p) <= removed
    && (|p| == 1 || Length(p[..|p| - 1]) < spacing)
  }

  ghost predicate HasChain(g: Adjacency, removed: set<NodeId>, spacing: real, a: NodeId, b: NodeId, length: real) {
    exists p :: ChainWalk(g, removed, spacing, a, p, b) && Length(p) == length
  }

  /** A contracted segment stands for a chain of the original graph of the same
      length, walked from one of its ends. */
  ghost predicate SegmentOk(g: Adjacency, c: Adjacency, removed: set<NodeId>, spacing: real, a: NodeId, e: Edge) {
    && e.target in c
    && WalkOfLength(g, a, e.target, e.length)
    && (HasChain(g, removed, spacing, a, e.target, e.length) || HasChain(g, removed, spacing, e.target, a, e.length))
  }

  ghost predicate SegmentsOk(g: Adjacency, c: Adjacency, removed: set<NodeId>, spacing: real) {
    forall a, e :: a in c && e in c[a] ==> SegmentOk(g, c, removed, spacing, a, e)
  }

  ghost predicate HasSegment(c: Adjacency, a: NodeId, b: NodeId, length: real) {
    exists e :: e in Neighbours(c, a) && e.target == b && e.length == length
  }

  /** The chain `p` from `a` to `b` has become one segment. */
  ghost predicate Merged(g: Adjacency, c: Adjacency, removed: set<NodeId>, spacing: real, a: NodeId, p: seq<Edge>, b: NodeId) {
    ChainWalk(g, removed, spacing, a, p, b) && HasSegment(c, a, b, Length(p))
  }

  /** A removed node lies inside a chain that has become a segment. */
  ghost predicate OnChain(g: Adjacency, c: Adjacency, removed: set<NodeId>, spacing: real, x: NodeId) {
    exists a, p, b :: Merged(g, c, removed, spacing, a, p, b) && x in Inner(p)
  }

  /** Both edges lead to the same neighbour. */
  ghost predicate Spur(g: Adjacency, x: NodeId) {
    x in g && |g[x]| == 2 && g[x][0].target == g[x][1].target
  }

  /** A segment at least as long as the spacing ends here. */
  ghost predicate LongEnd(c: Adjacency, spacing: real, x: NodeId) {
    exists e :: e in Neighbours(c, x) && e.length >= spacing
  }

  ghost predicate Needed(g: Adjacency, J: set<NodeId>, c: Adjacency, spacing: real, x: NodeId) {
    x in J || Spur(g, x) || LongEnd(c, spacing, x)
  }

  ghost function Removed(c: Adjacency, pos: map<NodeId, Pos>): set<NodeId> {
    pos.Keys - c.Keys
  }

  /** What has been built so far: segments that stand for chains, every removed
      node on one of them, and no node kept without a reason. */
  ghost predicate Built(g: Adjacency, J: set<NodeId>, c: Adjacency, spacing: real, pos: map<NodeId, Pos>) {
    && SegmentsOk(g, c, Removed(c, pos), spacing)
    && (forall x :: x in Removed(c, pos) ==> OnChain(g, c, Removed(c, pos), spacing, x))
    && (forall x :: x in c ==> Needed(g, J, c, spacing, x))
  }

  ghost predicate StepDone(g: Adjacency, c: Adjacency, pos: map<NodeId, Pos>, x: NodeId, y: NodeId) {
    x in pos && y in pos && HasEdge(g, x, y) && LocalStep(c, pos[x], pos[y], EdgeLength(g, x, y))
  }

  ghost predicate StepsDone(g: Adjacency, c: Adjacency, pos: map<NodeId, Pos>, done: set<Pair>) {
    forall x, y :: (x, y) in done ==> StepDone(g, c, pos, x, y)
  }

  /** All that holds when no segment is open. `skip` is a kept node at which a chain has just been cut. */
  ghost predicate Between(g: Adjacency, J: set<NodeId>, c: Adjacency, spacing: real, walked: set<Pair>, pos: map<NodeId, Pos>, skip: Option<NodeId>) {
    && WalkedOk(g, J, walked, skip)
    && PosOk(g, J, c, spacing, pos)
    && Ended(g, J, walked, pos, skip)
    && Built(g, J, c, spacing, pos)
    && StepsDone(g, c, pos, walked)
    && Total(c) == PairSum(g, walked)
  }

  // ---------- the open segment ----------

  /** The segment being walked: from `anchor`, past the nodes of `offs` (with
      their distances from it), over the edge `prev`-`current`. */
  datatype Open = Open(anchor: NodeId, offs: map<NodeId, real>, prev: NodeId, current: NodeId, length: real) {
    predicate On(x: NodeId) {
      x == anchor || x in offs
    }
    function Off(x: NodeId): real
      requires On(x)
    {
      if x == anchor then 0.0 else offs[x]
    }
    predicate LastPair(x: NodeId, y: NodeId) {
      (x == prev && y == current) || (x == current && y == prev)
    }
  }

  /** An edge inside the open segment changes the distance from the anchor by its own length at most. */
  ghost predicate OpenPair(g: Adjacency, o: Open, x: NodeId, y: NodeId) {
    && o.On(x) && o.On(y) && HasEdge(g, x, y)
    && o.Off(y) <= o.Off(x) + EdgeLength(g, x, y)
    && o.Off(x) <= o.Off(y) + EdgeLength(g, x, y)
  }

  ghost predicate OffOk(g: Adjacency, J: set<NodeId>, spacing: real, walked: set<Pair>, pos: map<NodeId, Pos>, o: Open, x: NodeId)
    requires x in o.offs
  {
    && x in g && x !in J && x !in pos && x != o.anchor && x != o.current
    && 0.0 <= o.offs[x] < spacing
    && WalkOfLength(g, o.anchor, x, o.offs[x])
    && AllWalked(g, walked, x)
  }

  /** The facts about the nodes already passed, apart from everything else. */
  ghost predicate OffsOk(g: Adjacency, J: set<NodeId>, spacing: real, walked: set<Pair>, pos: map<NodeId, Pos>, o: Open) {
    forall x :: x in o.offs ==> OffOk(g, J, spacing, walked, pos, o, x)
  }

  /** The walk along the open segment: its inner nodes are those passed. */
  ghost predicate FullWalk(g: Adjacency, o: Open, p: seq<Edge>)
    requires o.On(o.prev)
  {
    && p != [] && IsWalk(g, o.anchor, p, o.current) && NoTurn(o.anchor, p) && Inner(p) == o.offs.Keys
    && Length(p) == o.length && NodeAt(o.anchor, p, |p| - 1) == o.prev && Length(p[..|p| - 1]) == o.Off(o.prev)
  }

  ghost predicate HasFullWalk(g: Adjacency, o: Open)
    requires o.On(o.prev)
  {
    exists p :: FullWalk(g, o, p)
  }

  ghost predicate OpenOk(g: Adjacency, J: set<NodeId>, c: Adjacency, spacing: real, walked: set<Pair>, pos: map<NodeId, Pos>, o: Open) {
    && o.anchor in g && (o.anchor in J || o.anchor in c)
    && (o.anchor !in J ==> AllWalked(g, walked, o.anchor))
    && o.On(o.prev) && HasEdge(g, o.prev, o.current)
    && o.length == o.Off(o.prev) + EdgeLength(g, o.prev, o.current)
    && WalkOfLength(g, o.anchor, o.current, o.length) && HasFullWalk(g, o)
    && OffsOk(g, J, spacing, walked, pos, o)
    && (o.current in J || Fresh(walked, pos, o))
  }

  /** Nothing is known of `current` but the edge it was reached by. */
  ghost predicate Fresh(walked: set<Pair>, pos: map<NodeId, Pos>, o: Open) {
    o.current !in pos && o.current != o.anchor && forall y :: (o.current, y) in walked ==> y == o.prev
  }

  ghost predicate PairsOpen(g: Adjacency, walked: set<Pair>, done: set<Pair>, o: Open) {
    && done <= walked
    && (o.prev, o.current) in walked && (o.current, o.prev) in walked
    && forall x, y :: (x, y) in walked && (x, y) !in done ==> o.LastPair(x, y) || OpenPair(g, o, x, y)
  }

  /** All that holds in the middle of a segment. */
  ghost predicate Midway(g: Adjacency, J: set<NodeId>, c: Adjacency, spacing: real, walked: set<Pair>, done: set<Pair>, pos: map<NodeId, Pos>, o: Open) {
    && WalkedOk(g, J, walked, Some(o.current))
    && PosOk(g, J, c, spacing, pos)
    && Ended(g, J, walked, pos, None)
    && Built(g, J, c, spacing, pos)
    && StepsDone(g, c, pos, done)
    && OpenOk(g, J, c, spacing, walked, pos, o)
    && PairsOpen(g, walked, done, o)
    && Total(c) + 2.0 * o.length == PairSum(g, walked)
  }
}
