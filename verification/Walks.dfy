/** Adjacency lists, walks along them, and the shape every road graph has. */
module Walks {
  import opened Options
  import opened Geometry

  datatype Edge = Edge(target: NodeId, length: real, wayId: Option<string>, tags: map<string, string>)

  type Adjacency = map<NodeId, seq<Edge>>

  function Neighbours(g: Adjacency, n: NodeId): seq<Edge> {
    if n in g then g[n] else []
  }

  ghost predicate HasEdge(g: Adjacency, a: NodeId, b: NodeId) {
    exists e :: e in Neighbours(g, a) && e.target == b
  }

  /** How many of the listed edges lead to `y`. */
  ghost function Count(s: seq<Edge>, y: NodeId): nat {
    if s == [] then 0 else (if s[0].target == y then 1 else 0) + Count(s[1..], y)
  }

  ghost predicate Closed(g: Adjacency) {
    forall a, e :: a in g && e in g[a] ==> e.target in g
  }

  /** An edge leads elsewhere, and the edges listed the other way are as long. */
  ghost predicate EdgeOk(g: Adjacency, a: NodeId, e: Edge) {
    && e.target != a && e.length >= 0.0
    && forall f :: f in Neighbours(g, e.target) && f.target == a ==> f.length == e.length
  }

  ghost predicate Balanced(g: Adjacency, a: NodeId, b: NodeId)
    requires a in g && b in g
  {
    Count(g[a], b) == Count(g[b], a)
  }

  /** An undirected road graph as the loader builds it: no self-loops, every
      edge listed at both ends, and edges between the same two nodes equally long. */
  ghost predicate WellFormed(g: Adjacency) {
    && Closed(g)
    && (forall a, e {:trigger EdgeOk(g, a, e)} :: a in g && e in g[a] ==> EdgeOk(g, a, e))
    && (forall a, b {:trigger Balanced(g, a, b)} :: a in g && b in g ==> Balanced(g, a, b))
  }

  lemma {:induction false} CountPositive(s: seq<Edge>, y: NodeId)
    ensures Count(s, y) > 0 <==> exists e :: e in s && e.target == y
  {
    if s != [] {
      CountPositive(s[1..], y);
      if exists e :: e in s && e.target == y {
        var e :| e in s && e.target == y;
        assert e == s[0] || e in s[1..];
      }
    }
  }

  lemma HasEdgeSymmetric(g: Adjacency, a: NodeId, b: NodeId)
    requires WellFormed(g) && HasEdge(g, a, b)
    ensures a in g && b in g && a != b && HasEdge(g, b, a)
  {
    var e :| e in Neighbours(g, a) && e.target == b;
    assert EdgeOk(g, a, e) && Balanced(g, a, b);
    CountPositive(g[a], b);
    CountPositive(g[b], a);
  }

  /** The length of the edges between two neighbours (they all agree). */
  ghost function EdgeLength(g: Adjacency, a: NodeId, b: NodeId): (w: real)
    requires HasEdge(g, a, b)
  {
    var e :| e in Neighbours(g, a) && e.target == b;
    e.length
  }

  lemma EdgeLengthUnique(g: Adjacency, a: NodeId, e: Edge)
    requires WellFormed(g) && e in Neighbours(g, a)
    ensures HasEdge(g, a, e.target) && EdgeLength(g, a, e.target) == e.length >= 0.0
    ensures HasEdge(g, e.target, a) && EdgeLength(g, e.target, a) == e.length
    ensures a in g && e.target in g && e.target != a
  {
    HasEdgeSymmetric(g, a, e.target);
    var back :| back in Neighbours(g, e.target) && back.target == a;
    assert EdgeOk(g, a, e) && EdgeOk(g, e.target, back);
  }

  // ---------- walks ----------

  ghost predicate IsWalk(g: Adjacency, u: NodeId, p: seq<Edge>, v: NodeId)
    decreases |p|
  {
    if p == [] then u == v
    else p[0] in Neighbours(g, u) && IsWalk(g, p[0].target, p[1..], v)
  }

  function Length(p: seq<Edge>): real {
    if p == [] then 0.0 else p[0].length + Length(p[1..])
  }

  /** Some walk from `u` to `v` has exactly this length. */
  ghost predicate WalkOfLength(g: Adjacency, u: NodeId, v: NodeId, length: real) {
    exists p :: IsWalk(g, u, p, v) && Length(p) == length
  }

  /** Some walk from `u` to `v` is no longer than `bound`. */
  ghost predicate Within(g: Adjacency, u: NodeId, v: NodeId, bound: real) {
    exists p :: IsWalk(g, u, p, v) && Length(p) <= bound
  }

  ghost predicate Connected(g: Adjacency, u: NodeId, v: NodeId) {
    exists p :: IsWalk(g, u, p, v)
  }

  lemma {:induction false} WalkConcat(g: Adjacency, u: NodeId, p: seq<Edge>, v: NodeId, q: seq<Edge>, w: NodeId)
    requires IsWalk(g, u, p, v) && IsWalk(g, v, q, w)
    ensures IsWalk(g, u, p + q, w) && Length(p + q) == Length(p) + Length(q)
    decreases |p|
  {
    if p == [] {
      assert p + q == q;
    } else {
      WalkConcat(g, p[0].target, p[1..], v, q, w);
      assert (p + q)[1..] == p[1..] + q;
    }
  }

  lemma {:induction false} NeverNegative(g: Adjacency, a: NodeId, p: seq<Edge>, b: NodeId)
    requires WellFormed(g) && IsWalk(g, a, p, b)
    ensures Length(p) >= 0.0
    decreases |p|
  {
    if p != [] {
      assert EdgeOk(g, a, p[0]);
      NeverNegative(g, p[0].target, p[1..], b);
    }
  }

  lemma StepWalk(g: Adjacency, u: NodeId, e: Edge)
    requires e in Neighbours(g, u)
    ensures IsWalk(g, u, [e], e.target) && Length([e]) == e.length
  {
    assert [e][1..] == [];
    assert IsWalk(g, e.target, [], e.target);
  }

  /** In an undirected graph a walk can be walked back at the same length. */
  lemma {:induction false} WalkBack(g: Adjacency, u: NodeId, p: seq<Edge>, v: NodeId) returns (back: seq<Edge>)
    requires WellFormed(g) && IsWalk(g, u, p, v)
    ensures IsWalk(g, v, back, u) && Length(back) == Length(p)
    decreases |p|
  {
    if p == [] {
      back := [];
    } else {
      var rest := WalkBack(g, p[0].target, p[1..], v);
      HasEdgeSymmetric(g, u, p[0].target);
      assert EdgeOk(g, u, p[0]);
      var f :| f in Neighbours(g, p[0].target) && f.target == u;
      StepWalk(g, p[0].target, f);
      WalkConcat(g, v, rest, p[0].target, [f], u);
      back := rest + [f];
    }
  }

  lemma WalkOfLengthBack(g: Adjacency, u: NodeId, v: NodeId, length: real)
    requires WellFormed(g) && WalkOfLength(g, u, v, length)
    ensures WalkOfLength(g, v, u, length)
  {
    var p :| IsWalk(g, u, p, v) && Length(p) == length;
    var back := WalkBack(g, u, p, v);
  }

  lemma WalkOfLengthStep(g: Adjacency, u: NodeId, v: NodeId, length: real, e: Edge)
    requires WalkOfLength(g, u, v, length) && e in Neighbours(g, v)
    ensures WalkOfLength(g, u, e.target, length + e.length)
  {
    var p :| IsWalk(g, u, p, v) && Length(p) == length;
    StepWalk(g, v, e);
    WalkConcat(g, u, p, v, [e], e.target);
  }
}
