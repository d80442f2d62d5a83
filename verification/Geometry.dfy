/** Coordinates, the distance they are measured with, and the grid cells that index them. */
module Geometry {

  datatype NodeId = NodeId(lat: real, lon: real)

  /** Haversine distance, kept abstract: never negative and the same in both directions. */
  type Metric = d: (NodeId, NodeId) -> real
    | forall a, b :: d(a, b) >= 0.0 && d(a, b) == d(b, a)
    witness ((a, b) => 0.0)

  datatype Cell = Cell(row: int, col: int)

  const CELL_DEG: real := 0.005
  const CELL_M: real := 550.0

  /** Conversion of a float to an integer: towards zero. */
  function Truncate(x: real): int {
    if x >= 0.0 then x.Floor else -((-x).Floor)
  }

  function CellOf(n: NodeId): Cell {
    Cell(Truncate(n.lat / CELL_DEG), Truncate(n.lon / CELL_DEG))
  }

  function Abs(x: int): nat {
    if x >= 0 then x else -x
  }

  /** Chebyshev distance between cells: the ring of `a` on which `b` lies. */
  function Ring(a: Cell, b: Cell): nat {
    var dr, dc := Abs(b.row - a.row), Abs(b.col - a.col);
    if dr >= dc then dr else dc
  }

  function Max(a: real, b: real): real {
    if a >= b then a else b
  }

  // ---------- what cells and rings are ----------

  /** Cell `k` holds the degrees from five to five thousandths away from zero; the
      cell at zero holds those on either side of it. */
  predicate Holds(k: int, degrees: real) {
    if k > 0 then k as real <= 200.0 * degrees < (k + 1) as real
    else if k < 0 then (k - 1) as real < 200.0 * degrees <= k as real
    else -1.0 < 200.0 * degrees < 1.0
  }

  lemma TruncateExactly(x: real, k: int)
    ensures Truncate(x) == k <==>
      if k > 0 then k as real <= x < (k + 1) as real
      else if k < 0 then (k - 1) as real < x <= k as real
      else -1.0 < x < 1.0
  {
    assert x.Floor as real <= x < x.Floor as real + 1.0;
    assert (-x).Floor as real <= -x < (-x).Floor as real + 1.0;
  }

  /** Each place lies in one cell, the one that holds its latitude and its longitude. */
  lemma CellExactly(n: NodeId, c: Cell)
    ensures CellOf(n) == c <==> Holds(c.row, n.lat) && Holds(c.col, n.lon)
  {
    assert n.lat / CELL_DEG == 200.0 * n.lat && n.lon / CELL_DEG == 200.0 * n.lon;
    TruncateExactly(n.lat / CELL_DEG, c.row);
    TruncateExactly(n.lon / CELL_DEG, c.col);
  }

  /** Within `r` rings means within `r` rows and `r` columns. */
  lemma RingExactly(a: Cell, b: Cell, r: int)
    ensures Ring(a, b) <= r <==> -r <= b.row - a.row <= r && -r <= b.col - a.col <= r
  {
  }
}
