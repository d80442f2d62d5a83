/** Junctions of a road graph, with one node promoted in every junction-free ring. */
module Junctions {
  import opened Options
  import opened Geometry
  import opened Walks

  /** Two nodes whose only edges are two coincident edges to each other. */
  ghost predicate Twin(g: Adjacency, x: NodeId) {
    && x in g && |g[x]| == 2
    && g[x][0].target == g[x][1].target
    && var y := g[x][0].target; y in g && |g[y]| == 2 && g[y][0].target == x && g[y][1].target == x
  }

  ghost predicate Reaches(g: Adjacency, x: NodeId, J: set<NodeId>) {
    exists v :: v in J && Connected(g, x, v)
  }

  /** A node is anchored when a chain walked from some junction can meet it, or it is a twin. */
  ghost predicate Anchored(g: Adjacency, J: set<NodeId>, x: NodeId) {
    Reaches(g, x, J) || Twin(g, x)
  }

  /** The targets of the edges that do not lead straight back. */
  function Onward(s: seq<Edge>, previous: Option<NodeId>): seq<NodeId> {
    if s == [] then []
    else if previous == Some(s[0].target) then Onward(s[1..], previous)
    else [s[0].target] + Onward(s[1..], previous)
  }

  lemma {:induction false} OnwardTargets(s: seq<Edge>, previous: Option<NodeId>)
    ensures Onward(s, previous) != [] ==>
              Some(Onward(s, previous)[0]) != previous && exists e :: e in s && e.target == Onward(s, previous)[0]
    ensures Onward(s, previous) == [] ==> forall e :: e in s ==> Some(e.target) == previous
  {
    if s != [] {
      OnwardTargets(s[1..], previous);
    }
  }

  lemma TwoEdges(g: Adjacency, x: NodeId, a: NodeId, b: NodeId)
    requires WellFormed(g) && x in g && |g[x]| == 2 && HasEdge(g, x, a) && HasEdge(g, x, b) && a != b
    ensures forall z :: HasEdge(g, x, z) ==> z == a || z == b
  {
    assert g[x] == [g[x][0], g[x][1]];
  }

  lemma TwinNeighbour(g: Adjacency, x: NodeId, z: NodeId)
    requires WellFormed(g) && Twin(g, z) && HasEdge(g, x, z)
    ensures Twin(g, x)
  {
    HasEdgeSymmetric(g, x, z);
    assert g[z] == [g[z][0], g[z][1]];
  }

  /** Both edges of `v` lead to `u`, whose degree is also 2. */
  lemma BothBack(g: Adjacency, v: NodeId, u: NodeId)
    requires WellFormed(g) && v in g && |g[v]| == 2 && (forall e :: e in g[v] ==> e.target == u)
    requires u in g && |g[u]| == 2
    ensures Twin(g, v) && Twin(g, u)
  {
    assert Balanced(g, v, u);
    CountTwo(g[v], u);
    CountTwo(g[u], v);
  }

  lemma CountTwo(s: seq<Edge>, y: NodeId)
    requires |s| == 2
    ensures Count(s, y) == (if s[0].target == y then 1 else 0) + (if s[1].target == y then 1 else 0)
  {
    assert s[1..][0] == s[1] && s[1..][1..] == [];
    assert Count(s[1..], y) == (if s[1].target == y then 1 else 0) + Count(s[1..][1..], y);
  }

  // ---------- one walk of the repair ----------

  /** The nodes passed so far: distinct, none a junction, each linked to the
      next and never straight back, the last linked to `current`. */
  ghost predicate Trail(g: Adjacency, J: set<NodeId>, ring: seq<NodeId>, current: NodeId) {
    && current in g
    && (forall x :: x in ring ==> x in g && x !in J && |g[x]| == 2)
    && (forall i, j :: 0 <= i < j < |ring| ==> ring[i] != ring[j])
    && (forall i :: 0 <= i < |ring| ==> Link(g, ring, current, i))
  }

  ghost predicate Link(g: Adjacency, ring: seq<NodeId>, current: NodeId, i: int)
    requires 0 <= i < |ring|
  {
    && HasEdge(g, ring[i], NextOn(ring, current, i))
    && (i > 0 ==> NextOn(ring, current, i) != ring[i - 1])
  }

  ghost function NextOn(ring: seq<NodeId>, current: NodeId, i: nat): NodeId
    requires i < |ring|
  {
    if i + 1 < |ring| then ring[i + 1] else current
  }

  /** Past its first node, a trail node has no neighbours but those on the trail beside it. */
  lemma TrailLinks(g: Adjacency, J: set<NodeId>, ring: seq<NodeId>, current: NodeId, i: nat)
    requires WellFormed(g) && Trail(g, J, ring, current) && i < |ring|
    ensures var next := NextOn(ring, current, i);
      HasEdge(g, ring[i], next) && HasEdge(g, next, ring[i]) && next != ring[i]
    ensures i > 0 ==> forall z :: HasEdge(g, ring[i], z) ==> z == ring[i - 1] || z == NextOn(ring, current, i)
  {
    var next := NextOn(ring, current, i);
    assert Link(g, ring, current, i);
    HasEdgeSymmetric(g, ring[i], next);
    if i > 0 {
      assert Link(g, ring, current, i - 1);
      HasEdgeSymmetric(g, ring[i - 1], ring[i]);
      TwoEdges(g, ring[i], ring[i - 1], next);
    }
  }

  lemma TrailBefore(g: Adjacency, J: set<NodeId>, ring: seq<NodeId>, current: NodeId, i: nat)
    requires WellFormed(g) && Trail(g, J, ring, current) && 0 < i < |ring|
    ensures HasEdge(g, ring[i], ring[i - 1]) && NextOn(ring, current, i) != ring[i - 1]
  {
    TrailLinks(g, J, ring, current, i - 1);
    assert Link(g, ring, current, i);
  }

  /** A walk that meets itself does so at its first node. */
  lemma NoLasso(g: Adjacency, J: set<NodeId>, ring: seq<NodeId>, current: NodeId)
    requires WellFormed(g) && Trail(g, J, ring, current) && current in ring
    ensures current == ring[0]
  {
    var i :| 0 <= i < |ring| && ring[i] == current;
    var last := |ring| - 1;
    TrailLinks(g, J, ring, current, last);
    TrailLinks(g, J, ring, current, i);
    assert Link(g, ring, current, last);
  }

  lemma {:induction false} TrailConnected(g: Adjacency, J: set<NodeId>, ring: seq<NodeId>, current: NodeId, i: nat)
    requires Trail(g, J, ring, current) && i < |ring|
    ensures Connected(g, ring[i], current)
    decreases |ring| - i
  {
    var next := NextOn(ring, current, i);
    assert Link(g, ring, current, i);
    var e :| e in g[ring[i]] && e.target == next;
    StepWalk(g, ring[i], e);
    if i + 1 < |ring| {
      TrailConnected(g, J, ring, current, i + 1);
      var p :| IsWalk(g, next, p, current);
      WalkConcat(g, ring[i], [e], next, p, current);
    }
  }

  /** A ring closed at its first node contains no twin. */
  lemma RingIsNoTwin(g: Adjacency, J: set<NodeId>, ring: seq<NodeId>, current: NodeId)
    requires WellFormed(g) && Trail(g, J, ring, current) && ring != [] && current == ring[0]
    ensures !Twin(g, current)
  {
    var last := |ring| - 1;
    TrailLinks(g, J, ring, current, last);
    TrailLinks(g, J, ring, current, 0);
    assert last > 0;
    assert Link(g, ring, current, last);
    assert HasEdge(g, current, ring[1]) && HasEdge(g, current, ring[last]);
    TwinHasOneNeighbour(g, current, ring[1], ring[last]);
  }

  /** The component of `x` has no node of another degree: it is one ring. */
  ghost predicate OnRing(g: Adjacency, x: NodeId) {
    forall y :: Connected(g, x, y) ==> y in g && |g[y]| == 2
  }

  /** A closed ring has no neighbours but its own nodes. */
  lemma RingIsClosed(g: Adjacency, J: set<NodeId>, ring: seq<NodeId>, current: NodeId, i: nat, z: NodeId)
    requires WellFormed(g) && Trail(g, J, ring, current) && ring != [] && current == ring[0]
    requires i < |ring| && HasEdge(g, ring[i], z)
    ensures z in ring
  {
    var last := |ring| - 1;
    TrailLinks(g, J, ring, current, i);
    if i == 0 {
      TrailLinks(g, J, ring, current, last);
      assert Link(g, ring, current, last);
      TwoEdges(g, current, ring[1], ring[last]);
    }
  }

  lemma {:induction false} StaysOnRing(g: Adjacency, J: set<NodeId>, ring: seq<NodeId>, current: NodeId, x: NodeId, p: seq<Edge>, y: NodeId)
    requires WellFormed(g) && Trail(g, J, ring, current) && ring != [] && current == ring[0]
    requires x in ring && IsWalk(g, x, p, y)
    ensures y in ring
    decreases |p|
  {
    if p != [] {
      var i :| 0 <= i < |ring| && ring[i] == x;
      RingIsClosed(g, J, ring, current, i, p[0].target);
      StaysOnRing(g, J, ring, current, p[0].target, p[1..], y);
    }
  }

  lemma RingIsComponent(g: Adjacency, J: set<NodeId>, ring: seq<NodeId>, current: NodeId)
    requires WellFormed(g) && Trail(g, J, ring, current) && ring != [] && current == ring[0]
    ensures OnRing(g, current) && forall y :: Connected(g, current, y) ==> y in ring
  {
    forall y | Connected(g, current, y)
      ensures y in ring
    {
      var p :| IsWalk(g, current, p, y);
      StaysOnRing(g, J, ring, current, current, p, y);
    }
  }

  lemma TwinHasOneNeighbour(g: Adjacency, x: NodeId, a: NodeId, b: NodeId)
    requires x in g && HasEdge(g, x, a) && HasEdge(g, x, b) && a != b
    ensures !Twin(g, x)
  {
    if |g[x]| == 2 {
      assert g[x] == [g[x][0], g[x][1]];
    }
  }

  lemma TrailGrows(g: Adjacency, J: set<NodeId>, ring: seq<NodeId>, current: NodeId, next: NodeId)
    requires WellFormed(g) && Trail(g, J, ring, current)
    requires current !in J && current !in ring && |g[current]| == 2
    requires HasEdge(g, current, next) && (ring != [] ==> next != ring[|ring| - 1])
    ensures Trail(g, J, ring + [current], next)
  {
    HasEdgeSymmetric(g, current, next);
    var longer := ring + [current];
    forall i | 0 <= i < |longer|
      ensures Link(g, longer, next, i)
    {
      if i < |ring| {
        assert Link(g, ring, current, i);
        assert NextOn(longer, next, i) == NextOn(ring, current, i);
      }
    }
  }

  /** A walk that cannot go on without turning back stands on a twin, beside its partner. */
  lemma NowhereOnward(g: Adjacency, J: set<NodeId>, ring: seq<NodeId>, current: NodeId, previous: Option<NodeId>)
    requires WellFormed(g) && Trail(g, J, ring, current) && current !in ring && |g[current]| == 2
    requires previous == if ring == [] then None else Some(ring[|ring| - 1])
    requires forall e :: e in g[current] ==> Some(e.target) == previous
    ensures ring != [] && ring[0] != current
    ensures forall x :: x in ring + [current] ==> Twin(g, x)
  {
    assert g[current][0] in g[current];
    BothBack(g, current, previous.value);
    DeadEnd(g, J, ring, current);
  }

  /** A walk that stopped at a junction, or at its own start, anchors all it passed. */
  lemma TrailAnchored(g: Adjacency, J: set<NodeId>, ring: seq<NodeId>, current: NodeId, K: set<NodeId>)
    requires Trail(g, J, ring, current) && current in K
    ensures forall x :: x in ring ==> Anchored(g, K, x)
  {
    forall i | 0 <= i < |ring|
      ensures Connected(g, ring[i], current)
    {
      TrailConnected(g, J, ring, current, i);
    }
  }

  /** One walk: from `node` until a junction, the start again, or a dead end. */
  method FollowRing(g: Adjacency, junctions: set<NodeId>, node: NodeId) returns (current: NodeId, ring: seq<NodeId>)
    requires WellFormed(g) && node in g && node !in junctions
    requires forall x :: x in g && |g[x]| != 2 ==> x in junctions
    ensures current == node ==> !Twin(g, node) && OnRing(g, node) && forall y :: Connected(g, node, y) ==> y in ring
    ensures node in ring
    ensures forall x :: x in ring ==> Anchored(g, if current == node then junctions + {node} else junctions, x)
  {
    ring := [];
    current := node;
    var previous: Option<NodeId> := None;
    while current !in junctions && current !in ring
      invariant Trail(g, junctions, ring, current)
      invariant previous == if ring == [] then None else Some(ring[|ring| - 1])
      invariant if ring == [] then current == node else ring[0] == node
      decreases g.Keys - set x | x in ring
    {
      ghost var passed := ring;
      ring := ring + [current];
      var nxt := Onward(g[current], previous);
      OnwardTargets(g[current], previous);
      if nxt == [] {
        NowhereOnward(g, junctions, passed, current, previous);
        return;
      }
      TrailGrows(g, junctions, passed, current, nxt[0]);
      Shrinks(g.Keys, passed, current);
      previous, current := Some(current), nxt[0];
    }
    if current in ring {
      NoLasso(g, junctions, ring, current);
      RingIsNoTwin(g, junctions, ring, current);
      RingIsComponent(g, junctions, ring, current);
    }
    TrailAnchored(g, junctions, ring, current, if current == node then junctions + {node} else junctions);
  }

  lemma Shrinks(keys: set<NodeId>, ring: seq<NodeId>, x: NodeId)
    requires x in keys && x !in ring
    ensures (keys - set y | y in ring + [x]) < (keys - set y | y in ring)
  {
    assert x in keys - set y | y in ring;
  }

  /** A walk that ends at a twin has passed nothing but its partner. */
  lemma DeadEnd(g: Adjacency, J: set<NodeId>, ring: seq<NodeId>, current: NodeId)
    requires WellFormed(g) && Trail(g, J, ring, current) && ring != []
    requires Twin(g, current) && current !in ring
    ensures |ring| == 1 && Twin(g, ring[0]) && ring[0] != current
  {
    var last := |ring| - 1;
    TrailLinks(g, J, ring, current, last);
    TwinNeighbour(g, ring[last], current);
    if last > 0 {
      TrailBefore(g, J, ring, current, last);
      TwinHasOneNeighbour(g, ring[last], ring[last - 1], current);
    }
  }

  /** What a choice of junctions must satisfy: no twin is one, and what is none has two edges. */
  ghost predicate Base(g: Adjacency, J: set<NodeId>) {
    && WellFormed(g) && J <= g.Keys
    && (forall x :: x in g && |g[x]| != 2 ==> x in J)
    && (forall x :: x in J ==> !Twin(g, x))
  }

  lemma AnchoredGrows(g: Adjacency, J: set<NodeId>, K: set<NodeId>, x: NodeId)
    requires Anchored(g, J, x) && J <= K
    ensures Anchored(g, K, x)
  {
  }

  /** A node of degree 2 is a junction only on a ring, and only one of each ring. */
  ghost predicate OnePerRing(g: Adjacency, J: set<NodeId>) {
    && (forall x :: x in J && x in g && |g[x]| == 2 ==> OnRing(g, x))
    && (forall x, y :: x in J && y in J && x in g && |g[x]| == 2 && Connected(g, x, y) ==> x == y)
  }

  /** The rings repaired so far have been seen in full. */
  ghost predicate RingsSeen(g: Adjacency, J: set<NodeId>, seen: set<NodeId>) {
    forall x, y :: x in J && x in g && |g[x]| == 2 && Connected(g, x, y) ==> y in seen
  }

  lemma OneMoreRing(g: Adjacency, J: set<NodeId>, seen: set<NodeId>, node: NodeId)
    requires WellFormed(g) && OnePerRing(g, J) && RingsSeen(g, J, seen)
    requires node in g && |g[node]| == 2 && node !in seen && OnRing(g, node)
    requires J <= g.Keys
    ensures OnePerRing(g, J + {node})
  {
    forall y | y in J && Connected(g, node, y)
      ensures false
    {
      var p :| IsWalk(g, node, p, y);
      var back := WalkBack(g, node, p, y);
      assert Connected(g, y, node);
    }
  }

  method FindJunctions(g: Adjacency) returns (junctions: set<NodeId>)
    requires WellFormed(g)
    ensures Base(g, junctions) && OnePerRing(g, junctions)
    ensures forall x :: x in g ==> Anchored(g, junctions, x)
  {
    hide OnRing, OnePerRing, RingsSeen;
    junctions := set x | x in g && |g[x]| != 2;
    var seenInChain: set<NodeId> := {};
    NoRings(g, junctions, seenInChain);
    var todo := g.Keys;
    while todo != {}
      invariant todo <= g.Keys && junctions <= g.Keys
      invariant forall x :: x in g && |g[x]| != 2 ==> x in junctions
      invariant forall x :: x in junctions ==> !Twin(g, x)
      invariant forall x :: x in seenInChain || x in g.Keys - todo ==> Anchored(g, junctions, x)
      invariant OnePerRing(g, junctions) && RingsSeen(g, junctions, seenInChain)
    {
      var node :| node in todo;
      todo := todo - {node};
      if node in junctions || node in seenInChain {
        assert node in junctions ==> IsWalk(g, node, [], node);
        continue;
      }
      var current, ring := FollowRing(g, junctions, node);
      ghost var before := junctions;
      if current == node {
        OneMoreRing(g, junctions, seenInChain, node);
        junctions := junctions + {node};
      }
      forall x | x in seenInChain || x in g.Keys - todo - {node}
        ensures Anchored(g, junctions, x)
      {
        AnchoredGrows(g, before, junctions, x);
      }
      MoreSeen(g, before, junctions, seenInChain, set x | x in ring :: x);
      seenInChain := seenInChain + set x | x in ring :: x;
    }
  }

  lemma NoRings(g: Adjacency, J: set<NodeId>, seen: set<NodeId>)
    requires forall x :: x in J ==> x in g && |g[x]| != 2
    ensures OnePerRing(g, J) && RingsSeen(g, J, seen)
  {
  }

  lemma MoreSeen(g: Adjacency, J: set<NodeId>, K: set<NodeId>, seen: set<NodeId>, ring: set<NodeId>)
    requires RingsSeen(g, J, seen)
    requires forall x, y :: x in K && x !in J && Connected(g, x, y) ==> y in ring
    ensures RingsSeen(g, K, seen + ring)
  {
  }
}
