/** Which roads each transport mode may use, and what one mode's network owes another's. */
module Profiles {
  import opened Options
  import opened Geometry
  import opened Walks
  import opened Hazard
  import opened Routes
  import opened Sums
  import opened Chains
  import opened Contraction
  import opened Loading
  import opened RouteLaws
  import opened Connectivity
  import opened ContractedRoutes

  type Tags = map<string, string>

  /** How a tag's value is brought to lower case and stripped of blanks. */
  type Normal = f: string -> string | f("") == "" witness (s => s)

  const BLOCKING_ACCESS: set<string> :=
    {"no", "private", "customers", "delivery", "agricultural", "forestry", "emergency", "permit", "military", "destination_only"}
  const UNRELIABLE_SURFACE: set<string> := {"ground", "dirt", "earth", "mud", "sand", "grass"}
  const IMPASSABLE_SMOOTHNESS: set<string> := {"impassable", "very_horrible", "horrible"}
  const FALSY: set<string> := {"no", "false", "0", ""}
  const DIMENSIONS: seq<string> := ["maxweight", "maxheight", "width"]

  datatype Profile = Profile(
    grades: set<string>, accessTags: seq<string>, speed: real, strictSurface: bool, allowFord: bool, extraBlockedTags: seq<string>)

  /** Why a road may not be used. */
  datatype Refusal =
    | NoGrade
    | WrongGrade
    | AccessDenied(tag: string)
    | Conditional(tag: string)
    | Denied(tag: string)
    | BadSmoothness
    | BadSurface
    | Ford

  function Value(tags: Tags, tag: string, norm: Normal): string {
    norm(if tag in tags then tags[tag] else "")
  }

  predicate Denies(tags: Tags, tag: string, norm: Normal) {
    Value(tags, tag, norm) in BLOCKING_ACCESS
  }

  /** A conditional restriction counts whatever its condition says. */
  predicate IsConditional(tags: Tags, tag: string) {
    tag + ":conditional" in tags && tags[tag + ":conditional"] != ""
  }

  function FirstDenied(tags: Tags, asked: seq<string>, norm: Normal): (r: Option<string>)
    ensures r.None? <==> forall t :: t in asked ==> !Denies(tags, t, norm)
    ensures r.Some? ==> r.value in asked && Denies(tags, r.value, norm)
  {
    if asked == [] then None
    else if Denies(tags, asked[0], norm) then Some(asked[0])
    else FirstDenied(tags, asked[1..], norm)
  }

  function FirstConditional(tags: Tags, asked: seq<string>): (r: Option<string>)
    ensures r.None? <==> forall t :: t in asked ==> !IsConditional(tags, t)
    ensures r.Some? ==> r.value in asked && IsConditional(tags, r.value)
  {
    if asked == [] then None
    else if IsConditional(tags, asked[0]) then Some(asked[0])
    else FirstConditional(tags, asked[1..])
  }

  /** The checks, in the order in which the first to fail gives the reason. */
  function Refused(p: Profile, tags: Tags, norm: Normal): Option<Refusal> {
    var grade := Value(tags, "highway", norm);
    if grade == "" then Some(NoGrade)
    else if grade !in p.grades then Some(WrongGrade)
    else match FirstDenied(tags, p.accessTags, norm)
      case Some(t) => Some(AccessDenied(t))
      case None =>
        match FirstConditional(tags, p.accessTags + DIMENSIONS)
        case Some(t) => Some(Conditional(t))
        case None =>
          match FirstDenied(tags, p.extraBlockedTags, norm)
          case Some(t) => Some(Denied(t))
          case None =>
            if Value(tags, "smoothness", norm) in IMPASSABLE_SMOOTHNESS then Some(BadSmoothness)
            else if p.strictSurface && Value(tags, "surface", norm) in UNRELIABLE_SURFACE then Some(BadSurface)
            else if !p.allowFord && Value(tags, "ford", norm) !in FALSY then Some(Ford)
            else None
  }

  predicate MayUse(p: Profile, norm: Normal, tags: Tags) {
    Refused(p, tags, norm).None?
  }

  /** The raw value of a tag, empty if the road does not have it. */
  function Raw(tags: Tags, tag: string): string {
    if tag in tags then tags[tag] else ""
  }

  /** Which roads a mode may use, in no order: of its grades, with nothing it asks
      for denied, nothing conditional, not impassable, under strict rules not on an
      unreliable surface, and not through a ford unless allowed. */
  lemma MayUseExactly(p: Profile, norm: Normal, tags: Tags)
    ensures MayUse(p, norm, tags) <==>
      && norm(Raw(tags, "highway")) in p.grades && norm(Raw(tags, "highway")) != ""
      && (forall t :: t in p.accessTags || t in p.extraBlockedTags ==> norm(Raw(tags, t)) !in BLOCKING_ACCESS)
      && (forall t :: t in p.accessTags || t in {"maxweight", "maxheight", "width"} ==> Raw(tags, t + ":conditional") == "")
      && norm(Raw(tags, "smoothness")) !in IMPASSABLE_SMOOTHNESS
      && (p.strictSurface ==> norm(Raw(tags, "surface")) !in UNRELIABLE_SURFACE)
      && (!p.allowFord ==> norm(Raw(tags, "ford")) in FALSY)
  {
    forall t
      ensures Value(tags, t, norm) == norm(Raw(tags, t)) && (IsConditional(tags, t) <==> Raw(tags, t + ":conditional") != "")
    {
    }
    var asked := p.accessTags + DIMENSIONS;
    assert forall t :: t in DIMENSIONS <==> t in {"maxweight", "maxheight", "width"};
    assert forall t :: t in asked <==> t in p.accessTags || t in DIMENSIONS;
    hide Value, Raw, IsConditional;
  }

  /** The rule as a loader applies it. */
  function Rule(p: Profile, norm: Normal): Passable {
    tags => MayUse(p, norm, tags)
  }

  /** One profile asks at least as much of a road as the other. */
  ghost predicate AsStrict(p: Profile, q: Profile) {
    && p.grades <= q.grades
    && (forall t :: t in q.accessTags ==> t in p.accessTags)
    && (forall t :: t in q.extraBlockedTags ==> t in p.extraBlockedTags)
    && (q.strictSurface ==> p.strictSurface) && (p.allowFord ==> q.allowFord)
  }

  /** What the stricter profile may use, the other may. */
  lemma StricterUsesLess(p: Profile, q: Profile, norm: Normal, tags: Tags)
    requires AsStrict(p, q) && MayUse(p, norm, tags)
    ensures MayUse(q, norm, tags)
  {
    var asked := p.accessTags + DIMENSIONS;
    forall t | t in q.accessTags + DIMENSIONS
      ensures !IsConditional(tags, t)
    {
      assert t in asked;
    }
  }

  /** Taking tags off a road, other than its grade, never closes it: what is not mapped does not block. */
  lemma FewerTagsStayOpen(p: Profile, norm: Normal, more: Tags, fewer: Tags)
    requires fewer.Items <= more.Items && MayUse(p, norm, more)
    requires "highway" in fewer
    ensures MayUse(p, norm, fewer)
  {
    forall t | t in fewer
      ensures t in more && more[t] == fewer[t]
    {
      assert (t, fewer[t]) in fewer.Items;
    }
    forall t | t in p.accessTags + p.extraBlockedTags
      ensures !Denies(fewer, t, norm)
    {
      assert t !in fewer ==> Value(fewer, t, norm) == "";
    }
  }

  // ---------- the four modes ----------

  const DRIVABLE: set<string> :=
    {"motorway", "motorway_link", "trunk", "trunk_link", "primary", "primary_link", "secondary", "secondary_link",
     "tertiary", "tertiary_link", "unclassified", "residential", "living_street", "service", "track"}
  const WALKABLE: set<string> :=
    (DRIVABLE - {"motorway", "motorway_link", "trunk", "trunk_link"}) + {"footway", "path", "pedestrian", "steps", "corridor"}
  const CYCLABLE: set<string> := (WALKABLE - {"steps", "corridor"}) + {"cycleway"}
  const ASSISTED_GRADES: set<string> := WALKABLE - {"steps", "path", "track"}

  const FOOT: Profile := Profile(WALKABLE, ["access", "foot"], 1.1, false, false, [])
  const ASSISTED: Profile := Profile(ASSISTED_GRADES, ["access", "foot", "wheelchair"], 0.7, true, false, [])
  const BICYCLE: Profile := Profile(CYCLABLE, ["access", "bicycle"], 3.5, false, false, [])
  const CAR: Profile := Profile(DRIVABLE, ["access", "motor_vehicle", "vehicle", "motorcar"], 8.3, false, false, [])

  lemma AssistedIsStricter()
    ensures AsStrict(ASSISTED, FOOT) && ASSISTED.speed < FOOT.speed
  {
    assert ASSISTED_GRADES <= WALKABLE;
  }

  predicate IsMode(p: Profile) {
    p == FOOT || p == ASSISTED || p == BICYCLE || p == CAR
  }

  /** Whatever the mode: no road denied to all or impassable, no conditional
      restriction, and no ford. */
  lemma NeverSent(p: Profile, norm: Normal, tags: Tags)
    requires IsMode(p) && MayUse(p, norm, tags)
    ensures norm(Raw(tags, "access")) !in
      {"no", "private", "customers", "delivery", "agricultural", "forestry", "emergency", "permit", "military", "destination_only"}
    ensures norm(Raw(tags, "smoothness")) !in {"impassable", "very_horrible", "horrible"}
    ensures norm(Raw(tags, "ford")) in {"no", "false", "0", ""}
    ensures forall t :: t in {"access", "maxweight", "maxheight", "width"} ==> Raw(tags, t + ":conditional") == ""
  {
    MayUseExactly(p, norm, tags);
    hide MayUse, Raw;
    assert p.accessTags[0] == "access" && p.accessTags[0] in p.accessTags;
  }

  /** On foot and with assistance: no motorway or trunk road, and none denied to
      walkers; with assistance also no steps, path or track, none denied to
      wheelchairs, and no unreliable surface. */
  lemma NeverSentOnFoot(p: Profile, norm: Normal, tags: Tags)
    requires (p == FOOT || p == ASSISTED) && MayUse(p, norm, tags)
    ensures norm(Raw(tags, "highway")) !in {"motorway", "motorway_link", "trunk", "trunk_link"}
    ensures norm(Raw(tags, "foot")) !in BLOCKING_ACCESS && Raw(tags, "foot" + ":conditional") == ""
    ensures p == ASSISTED ==>
      && norm(Raw(tags, "highway")) !in {"steps", "path", "track"} && norm(Raw(tags, "surface")) !in {"ground", "dirt", "earth", "mud", "sand", "grass"}
      && norm(Raw(tags, "wheelchair")) !in BLOCKING_ACCESS && Raw(tags, "wheelchair" + ":conditional") == ""
  {
    MayUseExactly(p, norm, tags);
    hide MayUse, Raw;
    assert p.accessTags[1] == "foot" && p.accessTags[1] in p.accessTags;
    if p == ASSISTED {
      assert p.accessTags[2] == "wheelchair" && p.accessTags[2] in p.accessTags;
    }
  }

  /** By bicycle: no motorway, trunk road, steps or corridor, and none denied to bicycles. */
  lemma NeverSentByBicycle(norm: Normal, tags: Tags)
    requires MayUse(BICYCLE, norm, tags)
    ensures norm(Raw(tags, "highway")) !in {"steps", "corridor", "motorway", "motorway_link", "trunk", "trunk_link"}
    ensures norm(Raw(tags, "bicycle")) !in BLOCKING_ACCESS && Raw(tags, "bicycle" + ":conditional") == ""
  {
    MayUseExactly(BICYCLE, norm, tags);
    hide MayUse, Raw;
    assert BICYCLE.accessTags[1] == "bicycle" && BICYCLE.accessTags[1] in BICYCLE.accessTags;
  }

  /** By car: no way for others only, and none denied to vehicles of any kind. */
  lemma NeverSentByCar(norm: Normal, tags: Tags, t: string)
    requires MayUse(CAR, norm, tags) && t in {"motor_vehicle", "vehicle", "motorcar"}
    ensures norm(Raw(tags, "highway")) !in {"steps", "corridor", "footway", "path", "pedestrian", "cycleway"}
    ensures norm(Raw(tags, t)) !in BLOCKING_ACCESS && Raw(tags, t + ":conditional") == ""
  {
    MayUseExactly(CAR, norm, tags);
    hide MayUse, Raw;
    var asked := CAR.accessTags;
    assert asked[1] == "motor_vehicle" && asked[2] == "vehicle" && asked[3] == "motorcar";
    assert t == asked[1] || t == asked[2] || t == asked[3];
    assert t in asked;
  }

  // ---------- two modes on the same map ----------

  /** The stricter mode's full road graph has no road the other lacks. */
  lemma StricterHasFewerRoads(fs: seq<Feature>, p: Profile, q: Profile, norm: Normal, a: NodeId, b: NodeId)
    requires AsStrict(p, q) && JoinedByOne(fs, Rule(p, norm), a, b)
    ensures JoinedByOne(fs, Rule(q, norm), a, b)
  {
    var f :| f in fs && f.isLine && Rule(p, norm)(f.tags) && Joined(f, |f.points|, a, b);
    StricterUsesLess(p, q, norm, f.tags);
    assert Usable(f, Rule(q, norm));
  }

  /** An edge of the stricter mode's graph has one as long in the other's. */
  lemma EdgeShared(fs: seq<Feature>, dist: Metric, p: Profile, q: Profile, norm: Normal, u: NodeId, e: Edge) returns (f: Edge)
    requires AsStrict(p, q) && e in Neighbours(Roads(fs, Rule(p, norm), dist), u)
    ensures f in Neighbours(Roads(fs, Rule(q, norm), dist), u) && f.target == e.target && f.length == e.length
  {
    var g, h := Roads(fs, Rule(p, norm), dist), Roads(fs, Rule(q, norm), dist);
    RoadsAreWellFormed(fs, Rule(p, norm), dist);
    RoadsAreWellFormed(fs, Rule(q, norm), dist);
    hide Roads, JoinedByOne, Rule, AsStrict, WellFormed;
    assert HasEdge(g, u, e.target);
    RoadsJoin(fs, Rule(p, norm), dist, u, e.target);
    StricterHasFewerRoads(fs, p, q, norm, u, e.target);
    RoadsJoin(fs, Rule(q, norm), dist, u, e.target);
    f :| f in Neighbours(h, u) && f.target == e.target;
    assert e.length == dist(u, e.target) == f.length;
  }

  /** A walk of the stricter mode's graph is there, as long, in the other's. */
  lemma {:induction false} WalkShared(fs: seq<Feature>, dist: Metric, p: Profile, q: Profile, norm: Normal, g: Adjacency, h: Adjacency, u: NodeId, w: seq<Edge>, v: NodeId)
    requires AsStrict(p, q) && g == Roads(fs, Rule(p, norm), dist) && h == Roads(fs, Rule(q, norm), dist)
    requires IsWalk(g, u, w, v)
    ensures WalkOfLength(h, u, v, Length(w))
    decreases |w|
  {
    if w == [] {
      assert IsWalk(h, u, [], v);
    } else {
      hide Roads, Rule, AsStrict;
      var e := w[0];
      WalkShared(fs, dist, p, q, norm, g, h, e.target, w[1..], v);
      var f := EdgeShared(fs, dist, p, q, norm, u, e);
      var rest :| IsWalk(h, e.target, rest, v) && Length(rest) == Length(w[1..]);
      StepWalk(h, u, f);
      WalkConcat(h, u, [f], e.target, rest, v);
    }
  }

  ghost predicate PlansOn(q: Query, full: Adjacency, fs: seq<Feature>, dist: Metric, p: Profile, norm: Normal) {
    && full == Roads(fs, Rule(p, norm), dist) && IsContraction(full, q.g, MIN_NODE_SPACING_M)
    && Valid(q) && Calm(q) && q.speed == p.speed
  }

  /** With no hazards, between places both contracted graphs kept: where the
      stricter and slower mode gets through within the budget, so does the other,
      in no more time, though each was planned on its own contracted graph. */
  lemma LaxerModeIsNoSlower(fs: seq<Feature>, dist: Metric, norm: Normal, p: Profile, q: Profile, g: Adjacency, h: Adjacency, slow: Query, fast: Query, r: RouteResult, s: RouteResult)
    requires AsStrict(p, q) && p.speed <= q.speed
    requires PlansOn(slow, g, fs, dist, p, norm) && PlansOn(fast, h, fs, dist, q, norm)
    requires slow.start == fast.start && slow.goal == fast.goal && 0.0 <= slow.maxDuration <= fast.maxDuration
    requires Outcome(slow, r) && Outcome(fast, s) && r.found && r.duration <= slow.maxDuration
    ensures s.found && s.duration <= r.duration
  {
    hide Outcome, IsContraction, Calm, Valid, WellFormed, Measured, HasEdge, JoinedByOne, IsWalk, Length, AsStrict, Rule, Roads;
    assert slow.speed > 0.0 && fast.speed > 0.0 by {
      SpeedIsPositive(slow);
      SpeedIsPositive(fast);
    }
    RoadsAreWellFormed(fs, Rule(p, norm), dist);
    RoadsAreWellFormed(fs, Rule(q, norm), dist);
    var w := RouteWalk(g, slow, r);
    WalkShared(fs, dist, p, q, norm, g, h, slow.start, w, slow.goal);
    var v :| IsWalk(h, slow.start, v, slow.goal) && Length(v) == Length(w);
    Covers(r.duration, slow.maxDuration, fast.maxDuration, p.speed, q.speed);
    ContractedRouteIsShortest(h, MIN_NODE_SPACING_M, fast, s, v);
    Slower(s.duration, r.duration, p.speed, q.speed);
  }

  lemma SpeedIsPositive(q: Query)
    requires Valid(q)
    ensures q.speed > 0.0
  {
  }

  /** The walk a calm route takes. */
  lemma RouteLength(q: Query, r: RouteResult) returns (p: seq<Edge>)
    requires Valid(q) && Calm(q) && Outcome(q, r) && r.found
    ensures IsWalk(q.g, q.start, p, q.goal) && Length(p) == r.duration * q.speed && r.duration >= 0.0
  {
    hide *;
    SpeedIsPositive(q);
    p := RouteOf(q, r);
    CalmArrival(q, p);
    PathIsWalk(q, p);
    DriveBack(r.duration, Length(p), Length(p), q.speed);
  }

  /** The walk of the full graph that a calm route stands for. */
  lemma RouteWalk(g: Adjacency, q: Query, r: RouteResult) returns (w: seq<Edge>)
    requires WellFormed(g) && IsContraction(g, q.g, MIN_NODE_SPACING_M) && Valid(q) && Calm(q) && Outcome(q, r) && r.found
    ensures IsWalk(g, q.start, w, q.goal) && Length(w) == r.duration * q.speed && r.duration >= 0.0
  {
    var p := RouteLength(q, r);
    assert q.start in q.g;
    hide Outcome, Calm, Valid, WellFormed, NearKept, Total, PairSum, IsWalk, Length;
    assert WalkOfLength(g, q.start, q.goal, Length(p));
    w :| IsWalk(g, q.start, w, q.goal) && Length(w) == Length(p);
  }

  lemma Covers(duration: real, budget: real, larger: real, slow: real, fast: real)
    requires duration <= budget <= larger && 0.0 <= budget && 0.0 < slow <= fast
    ensures duration * slow <= larger * fast
  {
    assert (budget - duration) * slow >= 0.0;
    assert budget * (fast - slow) >= 0.0;
    assert (larger - budget) * fast >= 0.0;
  }

  lemma Slower(short: real, long: real, slow: real, fast: real)
    requires 0.0 < slow <= fast && short * fast <= long * slow && long >= 0.0
    ensures short <= long
  {
    assert long * (fast - slow) >= 0.0;
    assert short > long ==> (short - long) * fast > 0.0;
  }
}
