/** Sums over finite sets, and the total length of a road network. */
module Sums {
  import opened Options
  import opened Geometry
  import opened Walks
  import opened RoadGraphs

  ghost function SumOver<T>(s: set<T>, f: T -> real): real {
    if s == {} then 0.0
    else var x :| x in s; f(x) + SumOver(s - {x}, f)
  }

  lemma {:induction false} SumTake<T>(s: set<T>, f: T -> real, x: T)
    requires x in s
    ensures SumOver(s, f) == f(x) + SumOver(s - {x}, f)
    decreases |s|
  {
    var y :| y in s && SumOver(s, f) == f(y) + SumOver(s - {y}, f);
    if x != y {
      SumTake(s - {y}, f, x);
      SumTake(s - {x}, f, y);
      assert s - {y} - {x} == s - {x} - {y};
    }
  }

  lemma SumAdd<T>(s: set<T>, f: T -> real, x: T)
    requires x !in s
    ensures SumOver(s + {x}, f) == SumOver(s, f) + f(x)
  {
    SumTake(s + {x}, f, x);
    assert s + {x} - {x} == s;
  }

  lemma {:induction false} SumSame<T>(s: set<T>, f: T -> real, h: T -> real)
    requires forall x :: x in s ==> f(x) == h(x)
    ensures SumOver(s, f) == SumOver(s, h)
    decreases |s|
  {
    if s != {} {
      var x :| x in s;
      SumTake(s, f, x);
      SumTake(s, h, x);
      SumSame(s - {x}, f, h);
    }
  }

  lemma {:induction false} SumUnion<T>(s: set<T>, t: set<T>, f: T -> real)
    requires s !! t
    ensures SumOver(s + t, f) == SumOver(s, f) + SumOver(t, f)
    decreases |t|
  {
    if t == {} {
      assert s + t == s;
    } else {
      var x :| x in t;
      SumTake(t, f, x);
      SumTake(s + t, f, x);
      assert s + t - {x} == s + (t - {x});
      SumUnion(s, t - {x}, f);
    }
  }

  // ---------- total lengths ----------

  /** The lengths listed at a node, added up. */
  ghost function Listed(g: Adjacency): NodeId -> real {
    x => Length(Neighbours(g, x))
  }

  /** Every road counted once from each of its ends. */
  ghost function Total(g: Adjacency): real {
    SumOver(g.Keys, Listed(g))
  }

  lemma {:induction false} LengthAppend(p: seq<Edge>, q: seq<Edge>)
    ensures Length(p + q) == Length(p) + Length(q)
  {
    if p == [] {
      assert p + q == q;
    } else {
      LengthAppend(p[1..], q);
      assert (p + q)[1..] == p[1..] + q;
    }
  }

  lemma TotalSet(g: Adjacency, x: NodeId, s: seq<Edge>)
    ensures Total(g[x := s]) == Total(g) - Length(Neighbours(g, x)) + Length(s)
  {
    var h := g[x := s];
    var rest := g.Keys - {x};
    SumTake(h.Keys, Listed(h), x);
    assert h.Keys - {x} == rest;
    SumSame(rest, Listed(h), Listed(g));
    if x in g {
      SumTake(g.Keys, Listed(g), x);
    } else {
      assert rest == g.Keys;
    }
  }

  lemma TotalAppend(g: Adjacency, x: NodeId, e: Edge)
    ensures Total(g[x := Neighbours(g, x) + [e]]) == Total(g) + e.length
  {
    TotalSet(g, x, Neighbours(g, x) + [e]);
    LengthAppend(Neighbours(g, x), [e]);
  }

  /** Adding a segment adds its length at both ends. */
  lemma TotalWithSegment(g: Adjacency, a: NodeId, b: NodeId, length: real, wayId: Option<string>, tags: map<string, string>)
    ensures Total(WithSegment(g, a, b, length, wayId, tags)) == Total(g) + 2.0 * length
  {
    var g1 := if a in g then g else g[a := []];
    var g2 := if b in g1 then g1 else g1[b := []];
    TotalSet(g, a, []);
    TotalSet(g1, b, []);
    var e, f := Edge(b, length, wayId, tags), Edge(a, length, wayId, tags);
    TotalAppend(g2, a, e);
    TotalAppend(g2[a := g2[a] + [e]], b, f);
  }

  // ---------- sums over pairs of neighbours ----------

  type Pair = (NodeId, NodeId)

  ghost function Weight(g: Adjacency): Pair -> real {
    (p: Pair) => if HasEdge(g, p.0, p.1) then EdgeLength(g, p.0, p.1) else 0.0
  }

  ghost function PairSum(g: Adjacency, s: set<Pair>): real {
    SumOver(s, Weight(g))
  }

  /** Both directions of one edge. */
  lemma PairSumBoth(g: Adjacency, s: set<Pair>, a: NodeId, e: Edge)
    requires WellFormed(g) && e in Neighbours(g, a) && a != e.target
    requires (a, e.target) !in s && (e.target, a) !in s
    ensures PairSum(g, s + {(a, e.target), (e.target, a)}) == PairSum(g, s) + 2.0 * e.length
  {
    EdgeLengthUnique(g, a, e);
    SumAdd(s, Weight(g), (a, e.target));
    SumAdd(s + {(a, e.target)}, Weight(g), (e.target, a));
    assert s + {(a, e.target)} + {(e.target, a)} == s + {(a, e.target), (e.target, a)};
  }

  ghost function PairsAt(s: seq<Edge>, x: NodeId): set<Pair> {
    set e | e in s :: (x, e.target)
  }

  ghost function PairsFrom(g: Adjacency, keys: set<NodeId>): set<Pair> {
    set x, e | x in keys && e in Neighbours(g, x) :: (x, e.target)
  }

  ghost function AllPairs(g: Adjacency): set<Pair> {
    PairsFrom(g, g.Keys)
  }

  /** No two edges listed at a node lead to the same place. */
  ghost predicate Simple(g: Adjacency) {
    forall x, i, j :: x in g && 0 <= i < j < |g[x]| ==> g[x][i].target != g[x][j].target
  }

  lemma {:induction false} ListedIsPairs(g: Adjacency, x: NodeId, s: seq<Edge>)
    requires WellFormed(g) && (forall e :: e in s ==> e in Neighbours(g, x))
    requires forall i, j :: 0 <= i < j < |s| ==> s[i].target != s[j].target
    ensures Length(s) == PairSum(g, PairsAt(s, x))
  {
    if s != [] {
      ListedIsPairs(g, x, s[1..]);
      EdgeLengthUnique(g, x, s[0]);
      assert PairsAt(s, x) == PairsAt(s[1..], x) + {(x, s[0].target)};
      SumAdd(PairsAt(s[1..], x), Weight(g), (x, s[0].target));
    }
  }

  lemma PairsFromTake(g: Adjacency, keys: set<NodeId>, x: NodeId)
    requires x in keys && x in g
    ensures PairsFrom(g, keys) == PairsFrom(g, keys - {x}) + PairsAt(g[x], x)
    ensures PairsFrom(g, keys - {x}) !! PairsAt(g[x], x)
  {
  }

  lemma {:induction false} TotalFrom(g: Adjacency, keys: set<NodeId>)
    requires WellFormed(g) && Simple(g) && keys <= g.Keys
    ensures SumOver(keys, Listed(g)) == PairSum(g, PairsFrom(g, keys))
    decreases |keys|
  {
    if keys == {} {
      assert PairsFrom(g, keys) == {};
    } else {
      var x :| x in keys;
      SumTake(keys, Listed(g), x);
      TotalFrom(g, keys - {x});
      ListedIsPairs(g, x, g[x]);
      PairsFromTake(g, keys, x);
      SumUnion(PairsFrom(g, keys - {x}), PairsAt(g[x], x), Weight(g));
    }
  }

  lemma TotalIsPairs(g: Adjacency)
    requires WellFormed(g) && Simple(g)
    ensures Total(g) == PairSum(g, AllPairs(g))
  {
    TotalFrom(g, g.Keys);
  }
}
