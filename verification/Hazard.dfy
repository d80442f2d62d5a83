/** The hazard field: risk that only grows with time, field-report closures, and the policy that prices risk. */
module Hazard {
  import opened Options
  import opened Geometry

  datatype BBox = BBox(minLat: real, minLon: real, maxLat: real, maxLon: real)

  datatype HazardSlice = HazardSlice(horizonMinutes: int, height: int, width: int, bbox: BBox, values: seq<real>) {
    ghost predicate Valid() {
      height > 0 && width > 0 && |values| == height * width
    }
  }

  datatype BlockedPoint = BlockedPoint(lat: real, lon: real, radius: real, kind: string, detail: Option<string>)

  // ---------- one slice ----------

  function Clamp(x: int, n: int): int
    requires n > 0
  {
    if x < 0 then 0 else if x > n - 1 then n - 1 else x
  }

  predicate Covers(b: BBox, p: NodeId) {
    b.minLat <= p.lat <= b.maxLat && b.minLon <= p.lon <= b.maxLon
  }

  /** Where an offset falls on an axis divided into `n` cells (a zero extent is taken as tiny). */
  function Scaled(offset: real, extent: real, n: int): real {
    offset / Max(extent, 0.000000001) * n as real
  }

  /** Row 0 is the northern one. */
  function RowAt(s: HazardSlice, p: NodeId): int
    requires s.Valid()
  {
    Clamp(Truncate(Scaled(s.bbox.maxLat - p.lat, s.bbox.maxLat - s.bbox.minLat, s.height)), s.height)
  }

  function ColumnAt(s: HazardSlice, p: NodeId): int
    requires s.Valid()
  {
    Clamp(Truncate(Scaled(p.lon - s.bbox.minLon, s.bbox.maxLon - s.bbox.minLon, s.width)), s.width)
  }

  lemma CellInGrid(row: int, col: int, height: int, width: int)
    requires 0 <= row < height && 0 <= col < width
    ensures 0 <= row * width + col < height * width
  {
    assert row * width <= (height - 1) * width;
  }

  function ValueAt(s: HazardSlice, p: NodeId): Option<real>
    requires s.Valid()
  {
    if !Covers(s.bbox, p) then None
    else
      var row, col := RowAt(s, p), ColumnAt(s, p);
      CellInGrid(row, col, s.height, s.width);
      Some(s.values[row * s.width + col])
  }

  lemma Fraction(part: real, whole: real)
    requires 0.0 <= part <= 1.0 && whole >= 0.0
    ensures 0.0 <= part * whole <= whole
  {
    assert (1.0 - part) * whole >= 0.0;
  }

  lemma ClampHolds(y: real, n: int)
    requires n > 0 && 0.0 <= y <= n as real
    ensures Clamp(Truncate(y), n) as real <= y <= (Clamp(Truncate(y), n) + 1) as real
  {
  }

  lemma InSpan(offset: real, extent: real, n: int)
    requires 0.0 <= offset <= extent && n > 0
    ensures var y := Scaled(offset, extent, n); Clamp(Truncate(y), n) as real <= y <= (Clamp(Truncate(y), n) + 1) as real
  {
    var span := Max(extent, 0.000000001);
    var part, cells := offset / span, n as real;
    assert 0.0 <= part <= 1.0;
    Fraction(part, cells);
    ClampHolds(part * cells, n);
  }

  /** The value read is that of the grid cell whose rectangle holds the point:
      rows counted from the north, columns from the west. */
  lemma CellHoldsPoint(s: HazardSlice, p: NodeId)
    requires s.Valid() && Covers(s.bbox, p)
    ensures var y := Scaled(s.bbox.maxLat - p.lat, s.bbox.maxLat - s.bbox.minLat, s.height);
            RowAt(s, p) as real <= y <= (RowAt(s, p) + 1) as real
    ensures var x := Scaled(p.lon - s.bbox.minLon, s.bbox.maxLon - s.bbox.minLon, s.width);
            ColumnAt(s, p) as real <= x <= (ColumnAt(s, p) + 1) as real
    ensures ValueAt(s, p).Some? && 0 <= RowAt(s, p) < s.height && 0 <= ColumnAt(s, p) < s.width
  {
    hide Scaled;
    InSpan(s.bbox.maxLat - p.lat, s.bbox.maxLat - s.bbox.minLat, s.height);
    InSpan(p.lon - s.bbox.minLon, s.bbox.maxLon - s.bbox.minLon, s.width);
  }

  /** How far the `k`-th grid line lies from the first, on an axis divided into `n` cells. */
  function Line(extent: real, n: int, k: int): real
    requires n > 0
  {
    k as real * (Max(extent, 0.000000001) / n as real)
  }

  /** From the `k`-th line up to the next; the last cell takes all that is left. */
  ghost predicate InBand(offset: real, extent: real, n: int, k: int)
    requires n > 0
  {
    0 <= k < n && Line(extent, n, k) <= offset && (offset < Line(extent, n, k + 1) || k == n - 1)
  }

  /** The point lies in this cell: so far south of the northern border, and so far east of the western one. */
  ghost predicate InCell(s: HazardSlice, row: int, col: int, p: NodeId)
    requires s.Valid()
  {
    && InBand(s.bbox.maxLat - p.lat, s.bbox.maxLat - s.bbox.minLat, s.height, row)
    && InBand(p.lon - s.bbox.minLon, s.bbox.maxLon - s.bbox.minLon, s.width, col)
  }

  lemma OnAxis(offset: real, extent: real, n: int, k: int)
    requires n > 0
    ensures Line(extent, n, k) <= offset <==> k as real <= Scaled(offset, extent, n)
  {
    var span, cells := Max(extent, 0.000000001), n as real;
    var w, y := span / cells, Scaled(offset, extent, n);
    assert w > 0.0 && w * cells == span;
    var part := offset / span;
    assert part * span == offset && y == part * cells;
    assert y * w == part * (cells * w) == offset;
    if k as real <= y {
      assert (y - k as real) * w >= 0.0;
    } else {
      assert (k as real - y) * w > 0.0;
    }
  }

  lemma BandIsCell(offset: real, extent: real, n: int, k: int)
    requires n > 0 && offset >= 0.0
    ensures InBand(offset, extent, n, k) <==> k == Clamp(Truncate(Scaled(offset, extent, n)), n)
  {
    OnAxis(offset, extent, n, k);
    OnAxis(offset, extent, n, k + 1);
    OnAxis(offset, extent, n, 0);
    assert Line(extent, n, 0) == 0.0;
    hide Line, Scaled;
  }

  /** Inside the box, borders included, the value is that of the one cell in which
      the point lies, from values in row-major order; outside it there is none. */
  lemma ValueOfCell(s: HazardSlice, p: NodeId, row: int, col: int)
    requires s.Valid()
    ensures ValueAt(s, p).None? <==>
              p.lat < s.bbox.minLat || p.lat > s.bbox.maxLat || p.lon < s.bbox.minLon || p.lon > s.bbox.maxLon
    ensures ValueAt(s, p).Some? && InCell(s, row, col, p) ==>
              0 <= row * s.width + col < |s.values| && ValueAt(s, p) == Some(s.values[row * s.width + col])
    ensures ValueAt(s, p).Some? ==> exists r, c :: InCell(s, r, c, p)
  {
    if Covers(s.bbox, p) {
      var y, x := s.bbox.maxLat - p.lat, p.lon - s.bbox.minLon;
      BandIsCell(y, s.bbox.maxLat - s.bbox.minLat, s.height, row);
      BandIsCell(x, s.bbox.maxLon - s.bbox.minLon, s.width, col);
      BandIsCell(y, s.bbox.maxLat - s.bbox.minLat, s.height, RowAt(s, p));
      BandIsCell(x, s.bbox.maxLon - s.bbox.minLon, s.width, ColumnAt(s, p));
      hide InBand, Scaled;
      assert InCell(s, RowAt(s, p), ColumnAt(s, p), p);
      if InCell(s, row, col, p) {
        CellInGrid(RowAt(s, p), ColumnAt(s, p), s.height, s.width);
      }
    }
  }

  // ---------- slices from prediction tensors ----------

  datatype GridError = WrongSize(expected: int, got: nat)

  /** Every `step`-th value from `start` on. */
  function EveryNth(values: seq<real>, start: nat, step: nat): seq<real>
    requires step > 0
    decreases |values| - start
  {
    if start >= |values| then [] else [values[start]] + EveryNth(values, start + step, step)
  }

  lemma {:induction false} EveryNthAt(values: seq<real>, start: nat, step: nat, n: nat)
    requires step > 0 && (n > 0 ==> start + (n - 1) * step < |values|) && |values| <= start + n * step
    ensures |EveryNth(values, start, step)| == n
    ensures forall i :: 0 <= i < n ==> 0 <= start + i * step < |values| && EveryNth(values, start, step)[i] == values[start + i * step]
    decreases n
  {
    if n > 0 {
      Multiples(start, step, n);
      EveryNthAt(values, start + step, step, n - 1);
      forall i | 0 <= i < n
        ensures 0 <= start + i * step < |values| && EveryNth(values, start, step)[i] == values[start + i * step]
      {
        Multiples(start, step, i);
      }
    }
  }

  lemma Multiples(start: nat, step: nat, n: nat)
    ensures n > 0 ==> start + n * step == start + step + (n - 1) * step
    ensures n > 0 ==> (n - 1) * step >= 0
  {
  }

  function SliceFromGrid(horizon: int, height: int, width: int, bbox: BBox, values: seq<real>, channel: Option<nat>, channelCount: nat): Result<HazardSlice, GridError> {
    var chosen := if channelCount > 1 && channel.Some? then EveryNth(values, channel.value, channelCount) else values;
    if |chosen| != height * width then Err(WrongSize(height * width, |chosen|))
    else Ok(HazardSlice(horizon, height, width, bbox, chosen))
  }

  /** From a tensor that stores all channels of a cell side by side, exactly one
      hazard's channel is taken: no other hazard reaches the route. */
  lemma SliceTakesChannel(horizon: int, height: int, width: int, bbox: BBox, values: seq<real>, channel: nat, channelCount: nat)
    requires height > 0 && width > 0 && channelCount > 1 && channel < channelCount
    requires |values| == height * width * channelCount
    ensures var r := SliceFromGrid(horizon, height, width, bbox, values, Some(channel), channelCount);
      && r.Ok? && r.value.Valid()
      && forall i :: 0 <= i < height * width ==> 0 <= channel + i * channelCount < |values| && r.value.values[i] == values[channel + i * channelCount]
  {
    var n := height * width;
    assert n * channelCount == (n - 1) * channelCount + channelCount;
    EveryNthAt(values, channel, channelCount, n);
  }

  lemma {:induction false} EveryNthEnds(values: seq<real>, start: nat, step: nat)
    requires step > 0
    ensures var n := |EveryNth(values, start, step)|;
      (n > 0 ==> start + (n - 1) * step < |values|) && |values| <= start + n * step
    decreases |values| - start
  {
    if start < |values| {
      EveryNthEnds(values, start + step, step);
      var n := |EveryNth(values, start, step)|;
      Multiples(start, step, n);
      if n > 1 {
        Multiples(start, step, n - 1);
      }
    } else {
      assert 0 * step == 0;
    }
  }

  /** A slice is made exactly when the values chosen, all of them or one channel's,
      are as many as the cells; it keeps them, the horizon, the box and the size. */
  lemma SliceExactly(horizon: int, height: int, width: int, bbox: BBox, values: seq<real>, channel: Option<nat>, channelCount: nat)
    requires height >= 0 && width >= 0
    ensures var r, n := SliceFromGrid(horizon, height, width, bbox, values, channel, channelCount), height * width;
      && (r.Ok? ==> r.value.(values := []) == HazardSlice(horizon, height, width, bbox, []) && |r.value.values| == n)
      && if channelCount > 1 && channel.Some? then
           && (r.Ok? <==> (n > 0 ==> channel.value + (n - 1) * channelCount < |values|) && |values| <= channel.value + n * channelCount)
           && (r.Ok? ==> forall i :: 0 <= i < n ==> 0 <= channel.value + i * channelCount < |values| && r.value.values[i] == values[channel.value + i * channelCount])
         else
           (r.Ok? <==> |values| == n) && (r.Ok? ==> r.value.values == values)
  {
    var n := height * width;
    assert n >= 0;
    if channelCount > 1 && channel.Some? {
      var c := channel.value;
      EveryNthEnds(values, c, channelCount);
      if (n > 0 ==> c + (n - 1) * channelCount < |values|) && |values| <= c + n * channelCount {
        EveryNthAt(values, c, channelCount, n);
      }
      if |EveryNth(values, c, channelCount)| == n {
        EveryNthAt(values, c, channelCount, n);
      }
    }
  }

  // ---------- the field ----------

  ghost predicate Sorted(s: seq<HazardSlice>) {
    forall i, j :: 0 <= i < j < |s| ==> s[i].horizonMinutes <= s[j].horizonMinutes
  }

  ghost predicate AllValid(s: seq<HazardSlice>) {
    forall x :: x in s ==> x.Valid()
  }

  function Horizons(s: seq<HazardSlice>): (h: seq<int>)
    ensures |h| == |s| && forall i :: 0 <= i < |h| ==> h[i] == s[i].horizonMinutes
  {
    seq(|s|, i requires 0 <= i < |s| => s[i].horizonMinutes)
  }

  function Insert(x: HazardSlice, s: seq<HazardSlice>): seq<HazardSlice> {
    if s == [] || x.horizonMinutes <= s[0].horizonMinutes then [x] + s
    else [s[0]] + Insert(x, s[1..])
  }

  /** Stable sort by horizon. */
  function SortByHorizon(s: seq<HazardSlice>): seq<HazardSlice> {
    if s == [] then [] else Insert(s[0], SortByHorizon(s[1..]))
  }

  lemma {:induction false} InsertElements(x: HazardSlice, s: seq<HazardSlice>)
    ensures multiset(Insert(x, s)) == multiset(s) + multiset{x}
    ensures forall y :: y in Insert(x, s) ==> y == x || y in s
  {
    if s != [] && x.horizonMinutes > s[0].horizonMinutes {
      InsertElements(x, s[1..]);
      assert s == [s[0]] + s[1..];
    }
  }

  lemma {:induction false} InsertSorted(x: HazardSlice, s: seq<HazardSlice>)
    requires Sorted(s)
    ensures Sorted(Insert(x, s))
  {
    if s != [] && x.horizonMinutes > s[0].horizonMinutes {
      InsertSorted(x, s[1..]);
      InsertElements(x, s[1..]);
      assert forall y :: y in Insert(x, s[1..]) ==> s[0].horizonMinutes <= y.horizonMinutes;
    }
  }

  lemma {:induction false} SortSorts(s: seq<HazardSlice>)
    ensures Sorted(SortByHorizon(s)) && multiset(SortByHorizon(s)) == multiset(s)
  {
    if s != [] {
      SortSorts(s[1..]);
      InsertSorted(s[0], SortByHorizon(s[1..]));
      InsertElements(s[0], SortByHorizon(s[1..]));
      assert s == [s[0]] + s[1..];
    }
  }

  /** The rightmost insertion point of `x`: everything before is at most `x`, everything from there on is more. */
  function BisectRight(h: seq<int>, x: real): (k: nat)
    ensures k <= |h| && (k > 0 ==> h[k - 1] as real <= x) && forall j :: k <= j < |h| ==> h[j] as real > x
  {
    if h == [] || h[|h| - 1] as real <= x then |h| else BisectRight(h[..|h| - 1], x)
  }

  /** How many of the sorted slices count at this time: never none. */
  function Covered(s: seq<HazardSlice>, elapsed: real): (k: nat)
    requires s != []
    ensures 1 <= k <= |s|
  {
    var k := BisectRight(Horizons(s), elapsed / 60.0);
    if k == 0 then 1 else k
  }

  /** The worst value among the first `k` slices, never below zero. */
  function Worst(s: seq<HazardSlice>, p: NodeId, k: nat): real
    requires AllValid(s) && k <= |s|
  {
    if k == 0 then 0.0
    else
      var before := Worst(s, p, k - 1);
      match ValueAt(s[k - 1], p)
      case None => before
      case Some(v) => Max(before, v)
  }

  function RiskAt(s: seq<HazardSlice>, p: NodeId, elapsed: real): real
    requires AllValid(s)
  {
    if s == [] then 0.0 else Worst(s, p, Covered(s, elapsed))
  }

  lemma {:induction false} WorstGrows(s: seq<HazardSlice>, p: NodeId, j: nat, k: nat)
    requires AllValid(s) && j <= k <= |s|
    ensures Worst(s, p, j) <= Worst(s, p, k)
    decreases k
  {
    if j < k {
      WorstGrows(s, p, j, k - 1);
    }
  }

  /** Risk never falls with time, whatever the predictions: what burned once stays dangerous. */
  lemma RiskMonotone(s: seq<HazardSlice>, p: NodeId, t1: real, t2: real)
    requires AllValid(s) && t1 <= t2
    ensures 0.0 <= RiskAt(s, p, t1) <= RiskAt(s, p, t2)
  {
    if s != [] {
      var h := Horizons(s);
      var k1, k2 := BisectRight(h, t1 / 60.0), BisectRight(h, t2 / 60.0);
      assert k1 <= k2;
      WorstGrows(s, p, 0, Covered(s, t1));
      WorstGrows(s, p, Covered(s, t1), Covered(s, t2));
    }
  }

  /** The first slice given of those with the least horizon. */
  ghost predicate IsEarliest(s: seq<HazardSlice>, i: int) {
    && 0 <= i < |s|
    && (forall j :: 0 <= j < |s| ==> s[i].horizonMinutes <= s[j].horizonMinutes)
    && (forall j :: 0 <= j < i ==> s[i].horizonMinutes < s[j].horizonMinutes)
  }

  /** A slice counts at this time: its horizon has come, or it is the earliest of all. */
  ghost predicate Counts(s: seq<HazardSlice>, i: int, elapsed: real) {
    0 <= i < |s| && (s[i].horizonMinutes as real <= elapsed / 60.0 || IsEarliest(s, i))
  }

  /** The largest value any counting slice has at the point, or zero. Says nothing of the order of `s`. */
  ghost predicate IsRisk(s: seq<HazardSlice>, p: NodeId, elapsed: real, risk: real)
    requires AllValid(s)
  {
    && risk >= 0.0
    && (forall i :: Counts(s, i, elapsed) && ValueAt(s[i], p).Some? ==> ValueAt(s[i], p).value <= risk)
    && (risk == 0.0 || exists i :: Counts(s, i, elapsed) && ValueAt(s[i], p) == Some(risk))
  }

  lemma {:induction false} WorstIsMaximum(s: seq<HazardSlice>, p: NodeId, k: nat)
    requires AllValid(s) && k <= |s|
    ensures Worst(s, p, k) >= 0.0
    ensures forall i :: 0 <= i < k && ValueAt(s[i], p).Some? ==> ValueAt(s[i], p).value <= Worst(s, p, k)
    ensures Worst(s, p, k) == 0.0 || exists i :: 0 <= i < k && ValueAt(s[i], p) == Some(Worst(s, p, k))
  {
    if k > 0 {
      WorstIsMaximum(s, p, k - 1);
    }
  }

  /** The sort is stable: first comes the earliest slice, of several the one given first. */
  lemma {:induction false} SortedHead(s: seq<HazardSlice>) returns (i: int)
    requires s != []
    ensures IsEarliest(s, i) && SortByHorizon(s) != [] && SortByHorizon(s)[0] == s[i]
    decreases |s|
  {
    i := 0;
    if |s| > 1 {
      var j := SortedHead(s[1..]);
      if s[0].horizonMinutes > s[1..][j].horizonMinutes {
        i := j + 1;
      }
    }
  }

  /** What a sorted field covers is what counts in the order given. */
  lemma CoveredCounts(input: seq<HazardSlice>, elapsed: real, j: int) returns (i: int)
    requires input != [] && Sorted(SortByHorizon(input)) && |SortByHorizon(input)| > 0
    requires forall x :: x in SortByHorizon(input) <==> x in input
    requires 0 <= j < Covered(SortByHorizon(input), elapsed)
    ensures Counts(input, i, elapsed) && input[i] == SortByHorizon(input)[j]
  {
    var s := SortByHorizon(input);
    var h := Horizons(s);
    var k := BisectRight(h, elapsed / 60.0);
    hide SortByHorizon, IsEarliest;
    if k == 0 {
      i := SortedHead(input);
    } else {
      assert h[j] <= h[k - 1];
      assert s[j] in s && s[j] in input;
      i :| 0 <= i < |input| && input[i] == s[j];
    }
  }

  lemma CountingIsCovered(input: seq<HazardSlice>, elapsed: real, i: int) returns (j: int)
    requires Counts(input, i, elapsed) && Sorted(SortByHorizon(input)) && |SortByHorizon(input)| > 0
    requires forall x :: x in SortByHorizon(input) <==> x in input
    ensures 0 <= j < Covered(SortByHorizon(input), elapsed) && SortByHorizon(input)[j] == input[i]
  {
    var s := SortByHorizon(input);
    var h := Horizons(s);
    var k := BisectRight(h, elapsed / 60.0);
    hide SortByHorizon;
    if input[i].horizonMinutes as real <= elapsed / 60.0 {
      assert input[i] in input && input[i] in s;
      j :| 0 <= j < |s| && s[j] == input[i];
      assert h[j] == input[i].horizonMinutes;
    } else {
      var head := SortedHead(input);
      j := 0;
    }
  }

  /** Whatever order the predictions arrived in, the risk the field reports is the
      worst value predicted so far; before the first horizon, that of the first
      prediction, of several for that horizon the one given first. */
  lemma RiskIsWorstSoFar(input: seq<HazardSlice>, p: NodeId, elapsed: real)
    requires AllValid(input)
    ensures AllValid(SortByHorizon(input)) && IsRisk(input, p, elapsed, RiskAt(SortByHorizon(input), p, elapsed))
  {
    var s := SortByHorizon(input);
    SortKeepsValid(input);
    if input != [] {
      assert input[0] in s;
      var k := Covered(s, elapsed);
      WorstIsMaximum(s, p, k);
      hide Counts, Covered, ValueAt, SortByHorizon, IsEarliest, Worst;
      forall i | Counts(input, i, elapsed) && ValueAt(input[i], p).Some?
        ensures ValueAt(input[i], p).value <= Worst(s, p, k)
      {
        var j := CountingIsCovered(input, elapsed, i);
      }
      if j :| 0 <= j < k && ValueAt(s[j], p) == Some(Worst(s, p, k)) {
        var i := CoveredCounts(input, elapsed, j);
      }
    } else {
      assert s == [];
    }
  }

  lemma SortKeepsValid(s: seq<HazardSlice>)
    requires AllValid(s)
    ensures AllValid(SortByHorizon(s)) && Sorted(SortByHorizon(s))
    ensures forall x :: x in SortByHorizon(s) <==> x in s
  {
    SortSorts(s);
    forall x
      ensures x in SortByHorizon(s) <==> x in s
    {
      assert x in multiset(SortByHorizon(s)) <==> x in multiset(s);
    }
  }

  function FirstReport(dist: Metric, blocked: seq<BlockedPoint>, p: NodeId): (r: Option<BlockedPoint>)
    ensures r.None? <==> forall b :: b in blocked ==> dist(p, NodeId(b.lat, b.lon)) > b.radius
    ensures r.Some? ==> r.value in blocked && dist(p, NodeId(r.value.lat, r.value.lon)) <= r.value.radius
  {
    if blocked == [] then None
    else if dist(p, NodeId(blocked[0].lat, blocked[0].lon)) <= blocked[0].radius then Some(blocked[0])
    else FirstReport(dist, blocked[1..], p)
  }

  ghost predicate Inside(dist: Metric, b: BlockedPoint, p: NodeId) {
    dist(p, NodeId(b.lat, b.lon)) <= b.radius
  }

  /** The closure answered is the first of the list whose radius holds the point, if any does. */
  lemma {:induction false} ReportIsFirst(dist: Metric, blocked: seq<BlockedPoint>, p: NodeId)
    ensures match FirstReport(dist, blocked, p)
      case None => forall i :: 0 <= i < |blocked| ==> !Inside(dist, blocked[i], p)
      case Some(b) => exists i :: 0 <= i < |blocked| && blocked[i] == b && Inside(dist, b, p)
                               && forall j :: 0 <= j < i ==> !Inside(dist, blocked[j], p)
    decreases |blocked|
  {
    if blocked != [] && !Inside(dist, blocked[0], p) {
      ReportIsFirst(dist, blocked[1..], p);
      var r := FirstReport(dist, blocked[1..], p);
      if r.Some? {
        var i :| 0 <= i < |blocked[1..]| && blocked[1..][i] == r.value && forall j :: 0 <= j < i ==> !Inside(dist, blocked[1..][j], p);
        assert blocked[i + 1] == r.value;
        forall j | 0 <= j < i + 1
          ensures !Inside(dist, blocked[j], p)
        {
          assert j > 0 ==> blocked[j] == blocked[1..][j - 1];
        }
      }
    }
  }

  class HazardField {
    var slices: seq<HazardSlice>
    var horizons: seq<int>
    var blocked: seq<BlockedPoint>

    ghost predicate Valid()
      reads this
    {
      AllValid(slices) && Sorted(slices) && horizons == Horizons(slices)
    }

    /** Slices arrive in any order; the field keeps them sorted by horizon. */
    constructor (slices: seq<HazardSlice>, blocked: seq<BlockedPoint>)
      requires AllValid(slices)
      ensures Valid() && this.slices == SortByHorizon(slices) && this.blocked == blocked
    {
      SortKeepsValid(slices);
      this.slices := SortByHorizon(slices);
      this.horizons := Horizons(SortByHorizon(slices));
      this.blocked := blocked;
    }

    method BlockedByFieldReport(dist: Metric, p: NodeId) returns (r: Option<BlockedPoint>)
      ensures r == FirstReport(dist, blocked, p)
    {
      for i := 0 to |blocked|
        invariant FirstReport(dist, blocked, p) == FirstReport(dist, blocked[i..], p)
      {
        if dist(p, NodeId(blocked[i].lat, blocked[i].lon)) <= blocked[i].radius {
          return Some(blocked[i]);
        }
      }
      return None;
    }

    method Risk(p: NodeId, elapsed: real) returns (worst: real)
      requires Valid()
      ensures worst == RiskAt(slices, p, elapsed)
    {
      if slices == [] {
        return 0.0;
      }
      var index := BisectRight(horizons, elapsed / 60.0);
      if index == 0 {
        index := 1;
      }
      worst := 0.0;
      for i := 0 to index
        invariant worst == Worst(slices, p, i)
      {
        var value := ValueAt(slices[i], p);
        if value.Some? {
          worst := Max(worst, value.value);
        }
      }
    }
  }

  // ---------- the policy ----------

  datatype HazardPolicy = HazardPolicy(blockThreshold: real, avoidThreshold: real, avoidPenalty: real)

  const DEFAULT_POLICY := HazardPolicy(0.5, 0.2, 8.0)

  /** What a risk this far above the avoid threshold adds to the factor. */
  function Surcharge(above: real, span: real, gain: real): real
    requires span > 0.0
  {
    above / span * gain
  }

  function EdgeMultiplier(h: HazardPolicy, risk: real): Option<real> {
    if risk >= h.blockThreshold then None
    else if risk <= h.avoidThreshold then Some(1.0)
    else Some(1.0 + Surcharge(risk - h.avoidThreshold, Max(h.blockThreshold - h.avoidThreshold, 0.000000001), h.avoidPenalty - 1.0))
  }

  /** More risk never makes an edge cheaper, and never opens it again. */
  ghost predicate Monotone(h: HazardPolicy) {
    forall r1, r2 :: r1 <= r2 ==> CheaperOrSame(EdgeMultiplier(h, r1), EdgeMultiplier(h, r2))
  }

  ghost predicate CheaperOrSame(a: Option<real>, b: Option<real>) {
    b.Some? ==> a.Some? && a.value <= b.value
  }

  /** The penalty is a penalty, or the band it applies to is empty. */
  ghost predicate Sane(h: HazardPolicy) {
    h.avoidPenalty >= 1.0 || h.avoidThreshold >= h.blockThreshold
  }

  lemma SurchargeMonotone(x: real, y: real, span: real, gain: real)
    requires 0.0 <= x <= y && span > 0.0 && gain >= 0.0
    ensures 0.0 <= Surcharge(x, span, gain) <= Surcharge(y, span, gain)
  {
    var r, t := x / span, y / span;
    assert r * span == x && t * span == y;
    assert r >= 0.0 && (t - r) * span >= 0.0;
    assert r * gain >= 0.0 && (t - r) * gain >= 0.0;
    assert t * gain == r * gain + (t - r) * gain;
  }

  lemma NonNegativeProduct(a: real, b: real)
    requires a >= 0.0 && b >= 0.0
    ensures a * b >= 0.0
  {
  }

  lemma SurchargeIs(above: real, span: real, gain: real)
    requires 0.0 < above < span
    ensures Surcharge(above, span, gain) * span == above * gain
    ensures gain > 0.0 ==> 0.0 < Surcharge(above, span, gain) < gain
  {
    var ratio := above / span;
    assert ratio * span == above;
    assert ratio > 0.0;
    if ratio >= 1.0 {
      NonNegativeProduct(ratio - 1.0, span);
      assert false;
    }
    assert (ratio * gain) * span == above * gain;
    if gain > 0.0 {
      assert ratio * gain > 0.0 && (1.0 - ratio) * gain > 0.0;
    }
  }

  lemma SurchargeFalls(above: real, span: real, gain: real)
    requires above > 0.0 && span > 0.0 && gain < 0.0
    ensures Surcharge(above, span, gain) < 0.0
  {
    var ratio := above / span;
    assert ratio * span == above;
    assert ratio > 0.0;
  }

  lemma InBandFactor(h: HazardPolicy, risk: real)
    requires h.avoidThreshold < risk < h.blockThreshold
    ensures Max(h.blockThreshold - h.avoidThreshold, 0.000000001) > 0.0
    ensures EdgeMultiplier(h, risk) == Some(1.0 + Surcharge(risk - h.avoidThreshold, Max(h.blockThreshold - h.avoidThreshold, 0.000000001), h.avoidPenalty - 1.0))
  {
  }

  lemma OutOfBandFactor(h: HazardPolicy, risk: real)
    ensures EdgeMultiplier(h, risk).None? <==> risk >= h.blockThreshold
    ensures risk < h.blockThreshold && risk <= h.avoidThreshold ==> EdgeMultiplier(h, risk) == Some(1.0)
  {
  }

  lemma MultiplierMonotone(h: HazardPolicy, r1: real, r2: real)
    requires Sane(h) && r1 <= r2 && EdgeMultiplier(h, r2).Some?
    ensures EdgeMultiplier(h, r1).Some? && 1.0 <= EdgeMultiplier(h, r1).value <= EdgeMultiplier(h, r2).value
  {
    hide EdgeMultiplier, Surcharge, Max;
    OutOfBandFactor(h, r1);
    OutOfBandFactor(h, r2);
    if h.avoidThreshold < r2 {
      InBandFactor(h, r2);
      var span := Max(h.blockThreshold - h.avoidThreshold, 0.000000001);
      SurchargeMonotone(0.0, r2 - h.avoidThreshold, span, h.avoidPenalty - 1.0);
      if h.avoidThreshold < r1 {
        InBandFactor(h, r1);
        SurchargeMonotone(0.0, r1 - h.avoidThreshold, span, h.avoidPenalty - 1.0);
        SurchargeMonotone(r1 - h.avoidThreshold, r2 - h.avoidThreshold, span, h.avoidPenalty - 1.0);
      }
    }
  }

  /** The price of risk: none up to the avoid threshold, no way from the block
      threshold on, and in between the penalty in proportion to how far the risk has
      come from the one to the other, never reaching it. A band thinner than a
      billionth counts as that wide. */
  lemma PriceOfRisk(h: HazardPolicy, risk: real)
    ensures EdgeMultiplier(h, risk).None? <==> risk >= h.blockThreshold
    ensures risk < h.blockThreshold && risk <= h.avoidThreshold ==> EdgeMultiplier(h, risk) == Some(1.0)
    ensures h.avoidThreshold < risk < h.blockThreshold ==>
      var m, band := EdgeMultiplier(h, risk).value, h.blockThreshold - h.avoidThreshold;
      && (band >= 0.000000001 ==> (m - 1.0) * band == (risk - h.avoidThreshold) * (h.avoidPenalty - 1.0))
      && (band < 0.000000001 ==> (m - 1.0) * 0.000000001 == (risk - h.avoidThreshold) * (h.avoidPenalty - 1.0))
      && (h.avoidPenalty > 1.0 ==> 1.0 < m < h.avoidPenalty)
  {
    OutOfBandFactor(h, risk);
    if h.avoidThreshold < risk < h.blockThreshold {
      hide EdgeMultiplier, Surcharge;
      InBandFactor(h, risk);
      SurchargeIs(risk - h.avoidThreshold, Max(h.blockThreshold - h.avoidThreshold, 0.000000001), h.avoidPenalty - 1.0);
    }
  }

  /** Exactly which policies the search may rely on. */
  lemma MonotoneIffSane(h: HazardPolicy)
    ensures Monotone(h) <==> Sane(h)
  {
    if Sane(h) {
      forall r1, r2 | r1 <= r2 && EdgeMultiplier(h, r2).Some?
        ensures CheaperOrSame(EdgeMultiplier(h, r1), EdgeMultiplier(h, r2))
      {
        MultiplierMonotone(h, r1, r2);
      }
    } else {
      var low, high := h.avoidThreshold, (h.avoidThreshold + h.blockThreshold) / 2.0;
      var span := Max(h.blockThreshold - h.avoidThreshold, 0.000000001);
      SurchargeFalls(high - low, span, h.avoidPenalty - 1.0);
      InBandFactor(h, high);
      OutOfBandFactor(h, low);
      hide EdgeMultiplier, Surcharge, Max;
      assert !CheaperOrSame(EdgeMultiplier(h, low), EdgeMultiplier(h, high));
    }
  }
}
