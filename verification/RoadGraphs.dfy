/** The road graph with its grid index: adding segments and snapping to the nearest node. */
module RoadGraphs {
  import opened Options
  import opened Geometry
  import opened Walks

  type Index = map<Cell, seq<NodeId>>

  /** Every node sits in exactly one bucket, once, and it is the bucket of its own cell. */
  ghost predicate IndexOk(keys: set<NodeId>, index: Index) {
    && (forall c, i :: c in index && 0 <= i < |index[c]| ==> index[c][i] in keys && CellOf(index[c][i]) == c)
    && (forall c, i, j :: c in index && 0 <= i < j < |index[c]| ==> index[c][i] != index[c][j])
    && (forall n :: n in keys ==> CellOf(n) in index && n in index[CellOf(n)])
  }

  function Bucket(index: Index, c: Cell): seq<NodeId> {
    if c in index then index[c] else []
  }

  /** The adjacency after both ends are registered and the edge is listed at each. */
  function WithSegment(g: Adjacency, a: NodeId, b: NodeId, length: real, wayId: Option<string>, tags: map<string, string>): Adjacency {
    var g1 := if a in g then g else g[a := []];
    var g2 := if b in g1 then g1 else g1[b := []];
    var g3 := g2[a := g2[a] + [Edge(b, length, wayId, tags)]];
    g3[b := g3[b] + [Edge(a, length, wayId, tags)]]
  }

  /** What `WithSegment` means edge by edge: nothing is lost, and the new edge runs both ways. */
  lemma WithSegmentEdges(g: Adjacency, a: NodeId, b: NodeId, length: real, wayId: Option<string>, tags: map<string, string>)
    ensures var h := WithSegment(g, a, b, length, wayId, tags);
      && h.Keys == g.Keys + {a, b}
      && Edge(b, length, wayId, tags) in h[a] && Edge(a, length, wayId, tags) in h[b]
      && (forall x, e :: x in g && e in g[x] ==> e in h[x])
      && (forall x, e :: x in h && e in h[x] ==>
            e in Neighbours(g, x) || (x == a && e == Edge(b, length, wayId, tags)) || (x == b && e == Edge(a, length, wayId, tags)))
  {
  }

  lemma WithSegmentClosed(g: Adjacency, a: NodeId, b: NodeId, length: real, wayId: Option<string>, tags: map<string, string>)
    requires Closed(g)
    ensures Closed(WithSegment(g, a, b, length, wayId, tags))
  {
    WithSegmentEdges(g, a, b, length, wayId, tags);
  }

  // ---------- snapping ----------

  /** `n` lies in one of the cells at most `radius` rings away from the query's cell. */
  predicate InSquare(at: NodeId, n: NodeId, radius: int) {
    Ring(CellOf(at), CellOf(n)) <= radius
  }

  /** `best` is the closest node of the square strictly under the limit, or there is none. */
  ghost predicate ClosestInSquare(keys: set<NodeId>, dist: Metric, at: NodeId, limit: real, radius: int, best: Option<NodeId>) {
    match best
    case None => forall n :: n in keys && InSquare(at, n, radius) ==> dist(at, n) >= limit
    case Some(b) =>
      && b in keys && dist(at, b) < limit
      && (forall n :: n in keys && InSquare(at, n, radius) ==> dist(at, b) <= dist(at, n))
      && InSquare(at, b, radius)
  }

  function Rings(limit: real): nat {
    var r := Truncate(limit / CELL_M) + 1;
    if r >= 1 then r else 1
  }

  /** The search goes one ring further than the limit takes it at 550 m a ring. */
  lemma RingsExactly(limit: real, r: nat)
    requires limit >= 0.0
    ensures Rings(limit) == r <==> r >= 1 && 550.0 * (r - 1) as real <= limit < 550.0 * r as real
  {
    TruncateExactly(limit / CELL_M, r - 1);
    assert (limit / CELL_M) * 550.0 == limit;
  }

  /** Ring `radius` brings nothing strictly closer than what lies inside it. */
  ghost predicate Stalls(keys: set<NodeId>, dist: Metric, at: NodeId, limit: real, radius: int) {
    exists b :: InSquare(at, b, radius - 1) && ClosestInSquare(keys, dist, at, limit, radius, Some(b))
  }

  /** What snapping computes: the closest node of the square at which the search
      stops. It stops at the first ring (after the innermost) that stalls, or at the last. */
  ghost predicate SnappedAt(keys: set<NodeId>, dist: Metric, at: NodeId, limit: real, best: Option<NodeId>, radius: int) {
    && 0 <= radius <= Rings(limit)
    && ClosestInSquare(keys, dist, at, limit, radius, best)
    && (forall r :: 0 < r < radius ==> !Stalls(keys, dist, at, limit, r))
    && (radius < Rings(limit) ==> radius > 0 && Stalls(keys, dist, at, limit, radius))
  }

  ghost predicate Snapped(keys: set<NodeId>, dist: Metric, at: NodeId, limit: real, best: Option<NodeId>) {
    exists radius :: SnappedAt(keys, dist, at, limit, best, radius)
  }

  /** No node of the whole graph is closer. */
  ghost predicate Nearest(keys: set<NodeId>, dist: Metric, at: NodeId, b: NodeId) {
    b in keys && forall n :: n in keys ==> dist(at, b) <= dist(at, n)
  }

  function RingCost(width: real, ring: nat): real {
    width * (ring - 1) as real
  }

  /** Around the query cells are this wide: a node k whole rings away is at least k * width away. */
  ghost predicate CellsSpread(keys: set<NodeId>, dist: Metric, at: NodeId, width: real) {
    forall n :: n in keys ==> dist(at, n) >= RingCost(width, Ring(CellOf(at), CellOf(n)))
  }

  /** Two searches over the same nodes agree on whether there is a node and how far it is. */
  lemma SnapDetermined(keys: set<NodeId>, dist: Metric, at: NodeId, limit: real, r1: Option<NodeId>, r2: Option<NodeId>)
    requires Snapped(keys, dist, at, limit, r1) && Snapped(keys, dist, at, limit, r2)
    ensures r1.Some? <==> r2.Some?
    ensures r1.Some? ==> dist(at, r1.value) == dist(at, r2.value)
  {
    var a :| SnappedAt(keys, dist, at, limit, r1, a);
    var b :| SnappedAt(keys, dist, at, limit, r2, b);
    assert a == b;
    if r1.Some? && r2.Some? {
      assert dist(at, r1.value) <= dist(at, r2.value) <= dist(at, r1.value);
    }
  }

  /** Where the answer is the nearest node of the graph: it lies within the
      distance that the rings searched are known to cover. */
  lemma SnapIsNearest(keys: set<NodeId>, dist: Metric, at: NodeId, limit: real, b: NodeId, radius: int, width: real)
    requires SnappedAt(keys, dist, at, limit, Some(b), radius)
    requires width >= 0.0 && CellsSpread(keys, dist, at, width)
    requires dist(at, b) <= width * radius as real
    ensures Nearest(keys, dist, at, b)
  {
    forall n | n in keys
      ensures dist(at, b) <= dist(at, n)
    {
      if !InSquare(at, n, radius) {
        Outside(dist(at, n), width, Ring(CellOf(at), CellOf(n)), radius);
      }
    }
  }

  /** The answer is right: the nearest node of all, or no node under the limit. */
  ghost predicate IsRight(keys: set<NodeId>, dist: Metric, at: NodeId, limit: real, r: Option<NodeId>) {
    match r
    case None => forall n :: n in keys ==> dist(at, n) >= limit
    case Some(b) => Nearest(keys, dist, at, b)
  }

  /** A nearest node that the search comes to: under the limit, within the last
      ring, and no ring before its own brings the search to a stop. */
  ghost predicate ComesTo(keys: set<NodeId>, dist: Metric, at: NodeId, limit: real, n: NodeId) {
    && Nearest(keys, dist, at, n) && dist(at, n) < limit && InSquare(at, n, Rings(limit))
    && forall r :: 0 < r < Ring(CellOf(at), CellOf(n)) ==> !Stalls(keys, dist, at, limit, r)
  }

  /** Exactly when one search is right: no node is under the limit, or the search comes to a nearest one. */
  lemma SnapRightExactly(keys: set<NodeId>, dist: Metric, at: NodeId, limit: real, r: Option<NodeId>)
    requires Snapped(keys, dist, at, limit, r)
    ensures IsRight(keys, dist, at, limit, r)
       <==> (forall n :: n in keys ==> dist(at, n) >= limit) || exists n :: ComesTo(keys, dist, at, limit, n)
  {
    var radius :| SnappedAt(keys, dist, at, limit, r, radius);
    if r.Some? && Nearest(keys, dist, at, r.value) {
      SeenInTime(keys, dist, at, limit, r.value, radius);
    }
    if n :| ComesTo(keys, dist, at, limit, n) {
      StopsBeyond(keys, dist, at, limit, r, radius, n);
    }
  }

  /** The search has come to its own answer. */
  lemma SeenInTime(keys: set<NodeId>, dist: Metric, at: NodeId, limit: real, b: NodeId, radius: int)
    requires SnappedAt(keys, dist, at, limit, Some(b), radius) && Nearest(keys, dist, at, b)
    ensures ComesTo(keys, dist, at, limit, b)
  {
  }

  /** A search that comes to a nearest node does not stop before its ring. */
  lemma StopsBeyond(keys: set<NodeId>, dist: Metric, at: NodeId, limit: real, r: Option<NodeId>, radius: int, n: NodeId)
    requires SnappedAt(keys, dist, at, limit, r, radius) && ComesTo(keys, dist, at, limit, n)
    ensures r.Some? && Nearest(keys, dist, at, r.value)
  {
  }

  lemma Outside(distance: real, width: real, ring: nat, radius: int)
    requires width >= 0.0 && distance >= RingCost(width, ring) && ring > radius
    ensures distance >= width * radius as real
  {
    ScaleMonotone(width, radius, ring - 1);
  }

  lemma ScaleMonotone(width: real, m: int, n: int)
    requires width >= 0.0 && m <= n
    ensures width * m as real <= width * n as real
  {
    var x, y := m as real, n as real;
    assert width * (y - x) >= 0.0;
    assert width * y == width * x + width * (y - x);
  }

  /** The answer is not the nearest node in general, whatever the formula, as long as
      it measures these two pairs in the order in which they lie on the ground: 918 m
      to the east, three cells away, and 1090 m to the north, one cell away. The
      search ends at the empty second ring. */
  lemma SnapMayMissNearest(dist: Metric) returns (keys: set<NodeId>, at: NodeId, near: NodeId, far: NodeId)
    requires dist(NodeId(36.0001, 129.0049), NodeId(36.0001, 129.0151)) < dist(NodeId(36.0001, 129.0049), NodeId(36.0099, 129.0049)) < 2000.0
    ensures at == NodeId(36.0001, 129.0049) && near == NodeId(36.0099, 129.0049) && far == NodeId(36.0001, 129.0151)
    ensures keys == {near, far} && dist(at, far) < dist(at, near)
    ensures Snapped(keys, dist, at, 2000.0, Some(near))
    ensures forall r :: Snapped(keys, dist, at, 2000.0, r) ==> r == Some(near)
  {
    at, near, far := NodeId(36.0001, 129.0049), NodeId(36.0099, 129.0049), NodeId(36.0001, 129.0151);
    keys := {near, far};
    Cells();
    assert ClosestInSquare(keys, dist, at, 2000.0, 2, Some(near));
    assert Stalls(keys, dist, at, 2000.0, 2);
    forall b | ClosestInSquare(keys, dist, at, 2000.0, 1, Some(b))
      ensures b == near
    {}
    assert !Stalls(keys, dist, at, 2000.0, 1);
    assert SnappedAt(keys, dist, at, 2000.0, Some(near), 2);
    forall r | Snapped(keys, dist, at, 2000.0, r)
      ensures r == Some(near)
    {
      SnapDetermined(keys, dist, at, 2000.0, r, Some(near));
    }
  }

  lemma Cells()
    ensures CellOf(NodeId(36.0001, 129.0049)) == Cell(7200, 25800)
    ensures CellOf(NodeId(36.0099, 129.0049)) == Cell(7201, 25800)
    ensures CellOf(NodeId(36.0001, 129.0151)) == Cell(7200, 25803)
    ensures Rings(2000.0) == 4
  {
  }

  /** Cells scanned once ring `radius` has been walked up to offset (dy, dx). */
  predicate Scanned(at: NodeId, n: NodeId, radius: int, dy: int, dx: int) {
    var o, c := CellOf(at), CellOf(n);
    var ring := Ring(o, c);
    ring < radius || (ring == radius && (c.row < o.row + dy || (c.row == o.row + dy && c.col < o.col + dx)))
  }

  /** The running best is the closest of the nodes seen so far. */
  ghost predicate BestSoFar(seen: set<NodeId>, dist: Metric, at: NodeId, limit: real, best: Option<NodeId>, bestDistance: real) {
    && (best.None? ==> bestDistance == limit)
    && (best.Some? ==> best.value in seen && bestDistance == dist(at, best.value) && bestDistance < limit)
    && (forall n :: n in seen ==> bestDistance <= dist(at, n))
  }

  ghost function SeenAt(keys: set<NodeId>, at: NodeId, radius: int, dy: int, dx: int): set<NodeId> {
    set n | n in keys && Scanned(at, n, radius, dy, dx)
  }

  ghost function CellNodes(keys: set<NodeId>, c: Cell): set<NodeId> {
    set n | n in keys && CellOf(n) == c
  }

  ghost function Elements(s: seq<NodeId>): set<NodeId> {
    set n | n in s
  }

  // ---------- the cells read ----------

  ghost predicate NoRepeat(read: seq<Cell>) {
    forall i, j :: 0 <= i < j < |read| ==> read[i] != read[j]
  }

  /** The cells of one ring, up to offset (dy, dx), each once. */
  ghost predicate ReadUpto(read: seq<Cell>, o: Cell, radius: int, dy: int, dx: int) {
    && NoRepeat(read)
    && forall c :: c in read <==> Ring(o, c) == radius && (c.row < o.row + dy || (c.row == o.row + dy && c.col < o.col + dx))
  }

  /** Every cell of the square, each once. */
  ghost predicate ReadSquare(read: seq<Cell>, o: Cell, radius: int) {
    NoRepeat(read) && forall c :: c in read <==> Ring(o, c) <= radius
  }

  lemma ReadNothing(o: Cell)
    ensures ReadSquare([], o, -1)
  {
  }

  lemma ReadNone(o: Cell, radius: int)
    ensures ReadUpto([], o, radius, -radius, -radius)
  {
  }

  lemma ReadOne(read: seq<Cell>, o: Cell, radius: int, dy: int, dx: int)
    requires ReadUpto(read, o, radius, dy, dx)
    ensures var cell := Cell(o.row + dy, o.col + dx);
      ReadUpto(if Ring(o, cell) == radius then read + [cell] else read, o, radius, dy, dx + 1)
  {
    var cell := Cell(o.row + dy, o.col + dx);
    assert cell !in read;
    forall c
      ensures c in (if Ring(o, cell) == radius then read + [cell] else read) <==>
              Ring(o, c) == radius && (c.row < o.row + dy || (c.row == o.row + dy && c.col < o.col + dx + 1))
    {
      assert c in read <==> Ring(o, c) == radius && (c.row < o.row + dy || (c.row == o.row + dy && c.col < o.col + dx));
      if c.row == o.row + dy && c.col == o.col + dx {
        assert c == cell;
      }
    }
  }

  lemma ReadRow(read: seq<Cell>, o: Cell, radius: int, dy: int)
    requires radius >= 0 && ReadUpto(read, o, radius, dy, radius + 1)
    ensures ReadUpto(read, o, radius, dy + 1, -radius)
  {
  }

  lemma ReadRing(before: seq<Cell>, ring: seq<Cell>, o: Cell, radius: int)
    requires radius >= 0 && ReadSquare(before, o, radius - 1) && ReadUpto(ring, o, radius, radius + 1, -radius)
    ensures ReadSquare(before + ring, o, radius)
  {
    forall c
      ensures c in before + ring <==> Ring(o, c) <= radius
    {
      assert c in ring <==> Ring(o, c) == radius && (c.row < o.row + (radius + 1) || (c.row == o.row + (radius + 1) && c.col < o.col + -radius));
      assert c in before <==> Ring(o, c) <= radius - 1;
    }
    forall i, j | 0 <= i < j < |before + ring|
      ensures (before + ring)[i] != (before + ring)[j]
    {
      if i < |before| <= j {
        assert before[i] in before && ring[j - |before|] in ring;
      }
    }
  }

  /** A new node at the end of its cell's bucket. */
  lemma Indexed(keys: set<NodeId>, index: Index, node: NodeId)
    requires IndexOk(keys, index) && node !in keys
    ensures IndexOk(keys + {node}, index[CellOf(node) := Bucket(index, CellOf(node)) + [node]])
  {
    hide CellOf;
    var c := CellOf(node);
    var after := index[c := Bucket(index, c) + [node]];
    forall n | n in keys + {node}
      ensures CellOf(n) in after && n in after[CellOf(n)]
    {
      if n != node {
        assert n in index[CellOf(n)];
      } else {
        assert after[c][|after[c]| - 1] == node;
      }
    }
  }

  class RoadGraph {
    var nodes: Adjacency
    var index: Index
    var source: string
    var wayCount: nat

    ghost predicate Valid()
      reads this
    {
      Closed(nodes) && IndexOk(nodes.Keys, index)
    }

    constructor (source: string, wayCount: nat)
      ensures Valid() && nodes == map[] && this.source == source && this.wayCount == wayCount
    {
      nodes, index := map[], map[];
      this.source, this.wayCount := source, wayCount;
    }

    method Register(node: NodeId)
      requires Valid()
      modifies this`nodes, this`index
      ensures Valid()
      ensures nodes == if node in old(nodes) then old(nodes) else old(nodes)[node := []]
    {
      if node !in nodes {
        var c := CellOf(node);
        Indexed(nodes.Keys, index, node);
        index := index[c := Bucket(index, c) + [node]];
        ghost var was := nodes;
        nodes := nodes[node := []];
        assert nodes.Keys == was.Keys + {node};
        hide IndexOk, CellOf;
      }
    }

    method AddSegment(a: NodeId, b: NodeId, length: real, wayId: Option<string>, tags: map<string, string>)
      requires Valid()
      modifies this`nodes, this`index
      ensures Valid()
      ensures nodes == WithSegment(old(nodes), a, b, length, wayId, tags)
    {
      Register(a);
      Register(b);
      WithSegmentClosed(old(nodes), a, b, length, wayId, tags);
      nodes := nodes[a := nodes[a] + [Edge(b, length, wayId, tags)]];
      nodes := nodes[b := nodes[b] + [Edge(a, length, wayId, tags)]];
    }

    /** One bucket: keep the strictly closer node. */
    method ScanBucket(bucket: seq<NodeId>, dist: Metric, at: NodeId, limit: real, best: Option<NodeId>, bestDistance: real, ghost seen: set<NodeId>)
      returns (newBest: Option<NodeId>, newDistance: real, improved: bool)
      requires BestSoFar(seen, dist, at, limit, best, bestDistance)
      ensures BestSoFar(seen + Elements(bucket), dist, at, limit, newBest, newDistance)
      ensures improved <==> (newBest, newDistance) != (best, bestDistance)
      ensures improved ==> newBest.Some? && newBest.value in bucket && newDistance < bestDistance
    {
      newBest, newDistance, improved := best, bestDistance, false;
      for i := 0 to |bucket|
        invariant BestSoFar(seen + Elements(bucket[..i]), dist, at, limit, newBest, newDistance)
        invariant improved <==> (newBest, newDistance) != (best, bestDistance)
        invariant improved ==> newBest.Some? && newBest.value in bucket && newDistance < bestDistance
      {
        var distance := dist(at, bucket[i]);
        assert Elements(bucket[..i + 1]) == Elements(bucket[..i]) + {bucket[i]};
        if distance < newDistance {
          newBest, newDistance, improved := Some(bucket[i]), distance, true;
        }
      }
      assert bucket[..|bucket|] == bucket;
    }

    /** One ring of cells around the query, each cell read once. */
    method ScanRing(dist: Metric, at: NodeId, limit: real, radius: int, before: Option<NodeId>, beforeDistance: real)
      returns (best: Option<NodeId>, bestDistance: real, foundThisRing: bool, ghost read: seq<Cell>)
      requires Valid() && 0 <= radius
      requires BestSoFar(SeenAt(nodes.Keys, at, radius, -radius, -radius), dist, at, limit, before, beforeDistance)
      ensures BestSoFar(SeenAt(nodes.Keys, at, radius, radius + 1, -radius), dist, at, limit, best, bestDistance)
      ensures if foundThisRing then bestDistance < beforeDistance else (best, bestDistance) == (before, beforeDistance)
      ensures ReadUpto(read, CellOf(at), radius, radius + 1, -radius)
    {
      hide BestSoFar, SeenAt, Bucket, IndexOk, ReadUpto;
      read := [];
      ReadNone(CellOf(at), radius);
      best, bestDistance, foundThisRing := before, beforeDistance, false;
      var origin := CellOf(at);
      var dy := -radius;
      while dy <= radius
        invariant -radius <= dy <= radius + 1
        invariant BestSoFar(SeenAt(nodes.Keys, at, radius, dy, -radius), dist, at, limit, best, bestDistance)
        invariant ReadUpto(read, origin, radius, dy, -radius)
        invariant if foundThisRing then bestDistance < beforeDistance else (best, bestDistance) == (before, beforeDistance)
      {
        var dx := -radius;
        while dx <= radius
          invariant -radius <= dx <= radius + 1
          invariant BestSoFar(SeenAt(nodes.Keys, at, radius, dy, dx), dist, at, limit, best, bestDistance)
          invariant ReadUpto(read, origin, radius, dy, dx)
          invariant if foundThisRing then bestDistance < beforeDistance else (best, bestDistance) == (before, beforeDistance)
        {
          var cell := Cell(origin.row + dy, origin.col + dx);
          ReadOne(read, origin, radius, dy, dx);
          if radius != 0 && Ring(origin, cell) != radius {
            SkipCell(nodes.Keys, at, radius, dy, dx);
          } else {
            var improved;
            BucketIsCell(nodes.Keys, index, cell);
            ScanCell(nodes.Keys, at, radius, dy, dx);
            best, bestDistance, improved := ScanBucket(Bucket(index, cell), dist, at, limit, best, bestDistance, SeenAt(nodes.Keys, at, radius, dy, dx));
            foundThisRing := foundThisRing || improved;
            read := read + [cell];
          }
          dx := dx + 1;
        }
        NextRow(nodes.Keys, at, radius, dy);
        ReadRow(read, origin, radius, dy);
        dy := dy + 1;
      }
    }

    /** The cells read are those of the square at which the search stops, each once. */
    method NearestNode(dist: Metric, at: NodeId, limit: real) returns (best: Option<NodeId>, ghost read: seq<Cell>)
      requires Valid()
      ensures exists radius :: SnappedAt(nodes.Keys, dist, at, limit, best, radius) && ReadSquare(read, CellOf(at), radius)
      ensures Snapped(nodes.Keys, dist, at, limit, best)
      ensures best.Some? ==> best.value in nodes
    {
      var bestDistance := limit;
      best, read := None, [];
      hide ReadUpto, ReadSquare, Stalls, ClosestInSquare, IndexOk;
      ReadNothing(CellOf(at));
      var rings: int := Rings(limit);
      var radius: int := 0;
      while radius <= rings
        invariant 0 <= radius <= rings + 1
        invariant BestSoFar(SeenAt(nodes.Keys, at, radius, -radius, -radius), dist, at, limit, best, bestDistance)
        invariant ReadSquare(read, CellOf(at), radius - 1)
        invariant forall r :: 0 < r < radius ==> !Stalls(nodes.Keys, dist, at, limit, r)
        invariant radius == rings + 1 ==> ClosestInSquare(nodes.Keys, dist, at, limit, rings, best)
      {
        ghost var before, beforeDistance := best, bestDistance;
        RingStart(nodes.Keys, dist, at, limit, best, bestDistance, radius);
        var foundThisRing;
        ghost var ring;
        best, bestDistance, foundThisRing, ring := ScanRing(dist, at, limit, radius, best, bestDistance);
        ReadRing(read, ring, CellOf(at), radius);
        read := read + ring;
        NextRing(nodes.Keys, at, radius);
        StopsAt(nodes.Keys, dist, at, limit, best, bestDistance, radius);
        if best.Some? && !foundThisRing && radius > 0 {
          StoppedAt(nodes.Keys, dist, at, limit, best, radius);
          return;
        }
        RingImproves(nodes.Keys, dist, at, limit, before, beforeDistance, best, bestDistance, radius);
        radius := radius + 1;
      }
      assert SnappedAt(nodes.Keys, dist, at, limit, best, rings);
    }
  }

  lemma StoppedAt(keys: set<NodeId>, dist: Metric, at: NodeId, limit: real, best: Option<NodeId>, radius: int)
    requires 0 < radius <= Rings(limit) && best.Some? && InSquare(at, best.value, radius - 1)
    requires ClosestInSquare(keys, dist, at, limit, radius, best)
    requires forall r :: 0 < r < radius ==> !Stalls(keys, dist, at, limit, r)
    ensures SnappedAt(keys, dist, at, limit, best, radius)
  {
  }

  lemma BucketIsCell(keys: set<NodeId>, index: Index, c: Cell)
    requires IndexOk(keys, index)
    ensures Elements(Bucket(index, c)) == CellNodes(keys, c)
  {
  }

  lemma SkipCell(keys: set<NodeId>, at: NodeId, radius: int, dy: int, dx: int)
    requires Ring(CellOf(at), Cell(CellOf(at).row + dy, CellOf(at).col + dx)) != radius
    ensures SeenAt(keys, at, radius, dy, dx + 1) == SeenAt(keys, at, radius, dy, dx)
  {
    forall n | n in keys
      ensures Scanned(at, n, radius, dy, dx + 1) == Scanned(at, n, radius, dy, dx)
    {
      var o, c := CellOf(at), CellOf(n);
      if c.row == o.row + dy && c.col == o.col + dx {
        assert c == Cell(o.row + dy, o.col + dx);
      }
    }
  }

  lemma ScanCell(keys: set<NodeId>, at: NodeId, radius: int, dy: int, dx: int)
    requires Ring(CellOf(at), Cell(CellOf(at).row + dy, CellOf(at).col + dx)) == radius
    ensures SeenAt(keys, at, radius, dy, dx + 1)
         == SeenAt(keys, at, radius, dy, dx) + CellNodes(keys, Cell(CellOf(at).row + dy, CellOf(at).col + dx))
  {
  }

  lemma NextRow(keys: set<NodeId>, at: NodeId, radius: int, dy: int)
    requires radius >= 0
    ensures SeenAt(keys, at, radius, dy + 1, -radius) == SeenAt(keys, at, radius, dy, radius + 1)
  {
  }

  lemma NextRing(keys: set<NodeId>, at: NodeId, radius: int)
    requires radius >= 0
    ensures SeenAt(keys, at, radius + 1, -(radius + 1), -(radius + 1)) == SeenAt(keys, at, radius, radius + 1, -radius)
  {
  }

  lemma RingStart(keys: set<NodeId>, dist: Metric, at: NodeId, limit: real, best: Option<NodeId>, bestDistance: real, radius: int)
    requires BestSoFar(SeenAt(keys, at, radius, -radius, -radius), dist, at, limit, best, bestDistance)
    ensures best.Some? ==> InSquare(at, best.value, radius - 1)
  {
  }

  lemma RingImproves(keys: set<NodeId>, dist: Metric, at: NodeId, limit: real, before: Option<NodeId>, beforeDistance: real, best: Option<NodeId>, bestDistance: real, radius: int)
    requires 0 <= radius
    requires BestSoFar(SeenAt(keys, at, radius, -radius, -radius), dist, at, limit, before, beforeDistance)
    requires ClosestInSquare(keys, dist, at, limit, radius, best)
    requires best.Some? ==> radius == 0 || bestDistance < beforeDistance
    requires best.Some? ==> bestDistance == dist(at, best.value)
    ensures 0 < radius ==> !Stalls(keys, dist, at, limit, radius)
  {
  }

  lemma StopsAt(keys: set<NodeId>, dist: Metric, at: NodeId, limit: real, best: Option<NodeId>, bestDistance: real, radius: int)
    requires 0 <= radius
    requires BestSoFar(SeenAt(keys, at, radius + 1, -(radius + 1), -(radius + 1)), dist, at, limit, best, bestDistance)
    ensures ClosestInSquare(keys, dist, at, limit, radius, best)
  {
    assert forall n :: n in keys && InSquare(at, n, radius) ==> n in SeenAt(keys, at, radius + 1, -(radius + 1), -(radius + 1));
  }
}
