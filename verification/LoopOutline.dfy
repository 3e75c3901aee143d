/** A drawn loop of lines, arcs and Bézier curves: its flattened polygon and
    its bounds. */
module LoopOutline {
  import opened Results
  import opened RealVectors
  import opened LoopTest
  import opened LoopReach

  const APPROXIMATION: real := 0.000001

  datatype Segment =
    | Line(start: Vec2, end: Vec2)
    | Arc(start: Vec2, end: Vec2, center: Vec2, clockwise: bool)
    | Bezier(start: Vec2, control1: Vec2, control2: Vec2, end: Vec2)
    | Spline(points: seq<Vec2>)

  /** The library's trigonometry. */
  datatype Trig = Trig(cos: real -> real, sin: real -> real, atan2: (real, real) -> real, hypot: (real, real) -> real, tau: real)

  /** What is used of it: a unit circle, polar form and a positive full turn. */
  ghost predicate IsTrig(g: Trig) {
    && IsHypot(g.hypot)
    && g.tau > 0.0
    && (forall a :: g.cos(a) * g.cos(a) + g.sin(a) * g.sin(a) == 1.0)
    && (forall x, y :: g.hypot(x, y) * g.cos(g.atan2(y, x)) == x)
    && (forall x, y :: g.hypot(x, y) * g.sin(g.atan2(y, x)) == y)
  }

  function RemEuclid(x: real, m: real): real
    requires m > 0.0
  {
    x - m * (x / m).Floor as real
  }

  predicate Reaches(steps: nat, wanted: real) {
    steps as real >= wanted
  }

  /** The fewest chords, up to 1024, that reach the wanted number. */
  function FindSteps(n: nat, wanted: real): (steps: nat)
    requires 1 <= n <= 1025
    ensures 1 <= steps <= 1024
    ensures steps < 1024 ==> Reaches(steps, wanted)
    ensures forall m: nat :: n <= m < steps ==> !Reaches(m, wanted)
    decreases 1025 - n
  {
    if n > 1024 then 1024 else if Reaches(n, wanted) then n else FindSteps(n + 1, wanted)
  }

  function Angle(g: Trig, center: Vec2, p: Vec2): real {
    g.atan2(p.y - center.y, p.x - center.x)
  }

  function Radius(g: Trig, center: Vec2, p: Vec2): real {
    g.hypot(p.x - center.x, p.y - center.y)
  }

  /** The signed angle an arc turns through; one that ends where it starts is
      the whole circle. */
  function Sweep(g: Trig, arc: Segment): real
    requires arc.Arc? && g.tau > 0.0
  {
    var ccw := RemEuclid(Angle(g, arc.center, arc.end) - Angle(g, arc.center, arc.start), g.tau);
    var full := ccw < APPROXIMATION || g.tau - ccw < APPROXIMATION;
    if full then (if arc.clockwise then -g.tau else g.tau) else if arc.clockwise then ccw - g.tau else ccw
  }

  function ArcSteps(g: Trig, arc: Segment): (steps: nat)
    requires arc.Arc? && g.tau > 0.0
    ensures 1 <= steps <= 1024
  {
    FindSteps(1, Abs(Sweep(g, arc)) / g.tau * 1024.0)
  }

  function OnCircle(g: Trig, center: Vec2, radius: real, at: real): Vec2 {
    Vec2(center.x + radius * g.cos(at), center.y + radius * g.sin(at))
  }

  /** The angle of a sample. */
  function ArcAngle(g: Trig, arc: Segment, step: nat): real
    requires arc.Arc? && g.tau > 0.0
  {
    Angle(g, arc.center, arc.start) + Sweep(g, arc) * step as real / ArcSteps(g, arc) as real
  }

  function ArcSample(g: Trig, arc: Segment, step: nat): Vec2
    requires arc.Arc? && g.tau > 0.0
  {
    OnCircle(g, arc.center, Radius(g, arc.center, arc.start), ArcAngle(g, arc, step))
  }

  function Weighted(weight: real, x: real): real {
    weight * x
  }

  /** The cubic weights. */
  function Bernstein(k: nat, s: real, t: real): real
    requires k < 4
  {
    if k == 0 then s * s * s else if k == 1 then 3.0 * s * s * t else if k == 2 then 3.0 * s * t * t else t * t * t
  }

  /** Cubic blend of four numbers. */
  function Blend(t: real, a: real, b: real, c: real, d: real): real {
    var s := 1.0 - t;
    Weighted(Bernstein(0, s, t), a) + Weighted(Bernstein(1, s, t), b) + Weighted(Bernstein(2, s, t), c) + Weighted(Bernstein(3, s, t), d)
  }

  function BezierSample(z: Segment, step: nat): Vec2
    requires z.Bezier?
  {
    var t := step as real / 64.0;
    Vec2(Blend(t, z.start.x, z.control1.x, z.control2.x, z.end.x), Blend(t, z.start.y, z.control1.y, z.control2.y, z.end.y))
  }

  function Samples(g: Trig, segment: Segment): seq<Vec2>
    requires g.tau > 0.0
  {
    match segment
    case Line(start, _) => [start]
    case Arc(_, _, _, _) => seq(ArcSteps(g, segment), step requires 0 <= step < ArcSteps(g, segment) => ArcSample(g, segment, step))
    case Bezier(_, _, _, _) => seq(64, step requires 0 <= step < 64 => BezierSample(segment, step))
    case Spline(_) => []
  }

  function Flatten(g: Trig, segments: seq<Segment>): seq<Vec2>
    requires g.tau > 0.0
  {
    if segments == [] then []
    else Flatten(g, segments[..|segments| - 1]) + Samples(g, segments[|segments| - 1])
  }

  ghost predicate HasSpline(segments: seq<Segment>) {
    exists i :: 0 <= i < |segments| && segments[i].Spline?
  }

  /** The flattened loop, unless it holds a spline or has fewer than three points. */
  method LoopPolygon(g: Trig, segments: seq<Segment>) returns (r: Option<seq<Vec2>>)
    requires g.tau > 0.0
    ensures r.None? <==> HasSpline(segments) || |Flatten(g, segments)| < 3
    ensures r.Some? ==> r.value == Flatten(g, segments)
  {
    hide Samples;
    var polygon: seq<Vec2> := [];
    for i := 0 to |segments|
      invariant forall k :: 0 <= k < i ==> !segments[k].Spline?
      invariant polygon == Flatten(g, segments[..i])
    {
      if segments[i].Spline? {
        return None;
      }
      assert segments[..i + 1][..i] == segments[..i];
      polygon := polygon + Samples(g, segments[i]);
    }
    assert segments[..|segments|] == segments;
    r := if |polygon| >= 3 then Some(polygon) else None;
  }

  // ---------------------------------------------------------------- bounds

  /** A point with a reach around it. */
  datatype Disc = Disc(center: Vec2, reach: real)

  /** What a segment counts with; an arc counts with its whole circle. */
  function Discs(g: Trig, segment: Segment): seq<Disc> {
    match segment
    case Line(start, end) => [Disc(start, 0.0), Disc(end, 0.0)]
    case Arc(start, end, center, _) => [Disc(start, 0.0), Disc(end, 0.0), Disc(center, Radius(g, center, start))]
    case Bezier(a, b, c, d) => [Disc(a, 0.0), Disc(b, 0.0), Disc(c, 0.0), Disc(d, 0.0)]
    case Spline(points) => seq(|points|, i requires 0 <= i < |points| => Disc(points[i], 0.0))
  }

  function AllDiscs(g: Trig, segments: seq<Segment>): seq<Disc> {
    if segments == [] then [] else AllDiscs(g, segments[..|segments| - 1]) + Discs(g, segments[|segments| - 1])
  }

  predicate Holds(b: Box, d: Disc) {
    && b.low.x <= d.center.x - d.reach && d.center.x + d.reach <= b.high.x
    && b.low.y <= d.center.y - d.reach && d.center.y + d.reach <= b.high.y
  }

  ghost predicate HoldsAll(b: Box, discs: seq<Disc>) {
    forall i :: 0 <= i < |discs| ==> Holds(b, discs[i])
  }

  /** Every side of the box is reached by some disc. */
  ghost predicate Tight(b: Box, discs: seq<Disc>) {
    && (exists i :: 0 <= i < |discs| && b.low.x == discs[i].center.x - discs[i].reach)
    && (exists i :: 0 <= i < |discs| && b.low.y == discs[i].center.y - discs[i].reach)
    && (exists i :: 0 <= i < |discs| && b.high.x == discs[i].center.x + discs[i].reach)
    && (exists i :: 0 <= i < |discs| && b.high.y == discs[i].center.y + discs[i].reach)
  }

  /** The smallest box around the discs, or none when there are none. */
  ghost predicate Bounds(b: Option<Box>, discs: seq<Disc>) {
    if discs == [] then b.None? else b.Some? && HoldsAll(b.value, discs) && Tight(b.value, discs)
  }

  function Lower(a: real, b: real): real {
    if b < a then b else a
  }

  function Upper(a: real, b: real): real {
    if b > a then b else a
  }

  function Include(b: Option<Box>, d: Disc): Option<Box> {
    var (low, high) := (Vec2(d.center.x - d.reach, d.center.y - d.reach), Vec2(d.center.x + d.reach, d.center.y + d.reach));
    if b.None? then Some(Box(low, high))
    else Some(Box(Vec2(Lower(b.value.low.x, low.x), Lower(b.value.low.y, low.y)),
                  Vec2(Upper(b.value.high.x, high.x), Upper(b.value.high.y, high.y))))
  }

  lemma IncludeBounds(b: Option<Box>, discs: seq<Disc>, d: Disc)
    requires Bounds(b, discs) && d.reach >= 0.0
    ensures Bounds(Include(b, d), discs + [d])
  {
    var (all, r) := (discs + [d], Include(b, d).value);
    forall i | 0 <= i < |all|
      ensures Holds(r, all[i])
    {
    }
    IncludeTight(b, discs, d);
  }

  lemma IncludeTight(b: Option<Box>, discs: seq<Disc>, d: Disc)
    requires Bounds(b, discs)
    ensures Tight(Include(b, d).value, discs + [d])
  {
    var (all, r) := (discs + [d], Include(b, d).value);
    assert all[|discs|] == d;
    if b.Some? {
      var i :| 0 <= i < |discs| && b.value.low.x == discs[i].center.x - discs[i].reach;
      var j :| 0 <= j < |discs| && b.value.low.y == discs[j].center.y - discs[j].reach;
      var k :| 0 <= k < |discs| && b.value.high.x == discs[k].center.x + discs[k].reach;
      var l :| 0 <= l < |discs| && b.value.high.y == discs[l].center.y + discs[l].reach;
      assert all[i] == discs[i] && all[j] == discs[j] && all[k] == discs[k] && all[l] == discs[l];
      assert r.low.x == all[if r.low.x == b.value.low.x then i else |discs|].center.x - all[if r.low.x == b.value.low.x then i else |discs|].reach;
      assert r.low.y == all[if r.low.y == b.value.low.y then j else |discs|].center.y - all[if r.low.y == b.value.low.y then j else |discs|].reach;
      assert r.high.x == all[if r.high.x == b.value.high.x then k else |discs|].center.x + all[if r.high.x == b.value.high.x then k else |discs|].reach;
      assert r.high.y == all[if r.high.y == b.value.high.y then l else |discs|].center.y + all[if r.high.y == b.value.high.y then l else |discs|].reach;
    }
  }

  lemma ReachNotNegative(g: Trig, segment: Segment)
    requires IsHypot(g.hypot)
    ensures forall i :: 0 <= i < |Discs(g, segment)| ==> Discs(g, segment)[i].reach >= 0.0
  {
  }

  method IncludeAll(before: Option<Box>, discs: seq<Disc>, ghost earlier: seq<Disc>) returns (b: Option<Box>)
    requires Bounds(before, earlier) && forall i :: 0 <= i < |discs| ==> discs[i].reach >= 0.0
    ensures Bounds(b, earlier + discs)
  {
    hide Bounds, Include;
    b := before;
    assert earlier + discs[..0] == earlier;
    for i := 0 to |discs|
      invariant Bounds(b, earlier + discs[..i])
    {
      IncludeBounds(b, earlier + discs[..i], discs[i]);
      assert earlier + discs[..i] + [discs[i]] == earlier + discs[..i + 1];
      b := Include(b, discs[i]);
    }
    assert discs[..|discs|] == discs;
  }

  /** The smallest box around every point and circle of the loop. */
  method LoopBounds(g: Trig, segments: seq<Segment>) returns (b: Option<Box>)
    requires IsHypot(g.hypot)
    ensures Bounds(b, AllDiscs(g, segments))
  {
    b := None;
    for i := 0 to |segments|
      invariant Bounds(b, AllDiscs(g, segments[..i]))
    {
      hide Bounds, Discs;
      ReachNotNegative(g, segments[i]);
      b := IncludeAll(b, Discs(g, segments[i]), AllDiscs(g, segments[..i]));
      assert segments[..i + 1][..i] == segments[..i];
    }
    assert segments[..|segments|] == segments;
  }

  // ---------------------------------------------------------------- samples stay in the bounds

  lemma UnitBound(c: real, s: real)
    requires c * c + s * s == 1.0
    ensures -1.0 <= c <= 1.0
  {
    SquareSign(s);
    Leg(c, 1.0);
  }

  lemma ScaledUnit(radius: real, c: real)
    requires radius >= 0.0 && -1.0 <= c <= 1.0
    ensures -radius <= radius * c <= radius
  {
    ProductNonNegative(radius, 1.0 - c);
    ProductNonNegative(radius, 1.0 + c);
    assert radius * (1.0 - c) == radius - radius * c && radius * (1.0 + c) == radius + radius * c;
  }

  lemma CircleInside(g: Trig, b: Box, center: Vec2, radius: real, at: real)
    requires IsTrig(g) && radius >= 0.0 && Holds(b, Disc(center, radius))
    ensures InBox(b, OnCircle(g, center, radius, at))
  {
    UnitBound(g.cos(at), g.sin(at));
    UnitBound(g.sin(at), g.cos(at));
    ScaledUnit(radius, g.cos(at));
    ScaledUnit(radius, g.sin(at));
  }

  lemma BlendInside(t: real, a: real, b: real, c: real, d: real, low: real, high: real)
    requires 0.0 <= t <= 1.0
    requires low <= a <= high && low <= b <= high && low <= c <= high && low <= d <= high
    ensures low <= Blend(t, a, b, c, d) <= high
  {
    hide Bernstein, Weighted;
    var s := 1.0 - t;
    WeightsPositive(s, t);
    WeightsSum(s, t);
    FourBlend(Bernstein(0, s, t), Bernstein(1, s, t), Bernstein(2, s, t), Bernstein(3, s, t), a, b, c, d, low, high);
  }

  lemma WeightsPositive(s: real, t: real)
    requires s >= 0.0 && t >= 0.0
    ensures Bernstein(0, s, t) >= 0.0 && Bernstein(1, s, t) >= 0.0 && Bernstein(2, s, t) >= 0.0 && Bernstein(3, s, t) >= 0.0
  {
    ProductNonNegative(s, s);
    ProductNonNegative(s * s, s);
    ProductNonNegative(3.0 * s, s);
    ProductNonNegative(3.0 * s * s, t);
    ProductNonNegative(3.0 * s, t);
    ProductNonNegative(3.0 * s * t, t);
    ProductNonNegative(t, t);
    ProductNonNegative(t * t, t);
  }

  lemma WeightsSum(s: real, t: real)
    requires s + t == 1.0
    ensures Bernstein(0, s, t) + Bernstein(1, s, t) + Bernstein(2, s, t) + Bernstein(3, s, t) == 1.0
  {
    assert (s + t) * (s + t) * (s + t) == s * s * s + 3.0 * s * s * t + 3.0 * s * t * t + t * t * t;
  }

  lemma FourBlend(w0: real, w1: real, w2: real, w3: real, a: real, b: real, c: real, d: real, low: real, high: real)
    requires w0 >= 0.0 && w1 >= 0.0 && w2 >= 0.0 && w3 >= 0.0 && w0 + w1 + w2 + w3 == 1.0
    requires low <= a <= high && low <= b <= high && low <= c <= high && low <= d <= high
    ensures low <= Weighted(w0, a) + Weighted(w1, b) + Weighted(w2, c) + Weighted(w3, d) <= high
  {
    hide Weighted;
    WeightedBounds(w0, a, low, high);
    WeightedBounds(w1, b, low, high);
    WeightedBounds(w2, c, low, high);
    WeightedBounds(w3, d, low, high);
    UnitTotal(w0, w1, w2, w3, low);
    UnitTotal(w0, w1, w2, w3, high);
  }

  lemma UnitTotal(w0: real, w1: real, w2: real, w3: real, x: real)
    requires w0 + w1 + w2 + w3 == 1.0
    ensures Weighted(w0, x) + Weighted(w1, x) + Weighted(w2, x) + Weighted(w3, x) == x
  {
    var total := w0 + w1 + w2 + w3;
    assert total * x == x;
    assert w0 * x + w1 * x + w2 * x + w3 * x == (w0 + w1 + w2 + w3) * x;
  }

  lemma WeightedBounds(w: real, a: real, low: real, high: real)
    requires w >= 0.0 && low <= a <= high
    ensures Weighted(w, low) <= Weighted(w, a) <= Weighted(w, high)
  {
    ProductNonNegative(w, a - low);
    ProductNonNegative(w, high - a);
  }

  lemma ArcInside(g: Trig, b: Box, arc: Segment, step: nat)
    requires IsTrig(g) && arc.Arc? && HoldsAll(b, Discs(g, arc))
    ensures InBox(b, ArcSample(g, arc, step))
  {
    hide ArcAngle, OnCircle;
    assert Holds(b, Discs(g, arc)[2]);
    RadiusNotNegative(g, arc.center, arc.start);
    CircleInside(g, b, arc.center, Radius(g, arc.center, arc.start), ArcAngle(g, arc, step));
  }

  lemma RadiusNotNegative(g: Trig, center: Vec2, p: Vec2)
    requires IsTrig(g)
    ensures Radius(g, center, p) >= 0.0
  {
  }

  lemma BezierInside(g: Trig, b: Box, z: Segment, step: nat)
    requires z.Bezier? && step < 64 && HoldsAll(b, Discs(g, z))
    ensures InBox(b, BezierSample(z, step))
  {
    hide Blend;
    var discs := Discs(g, z);
    assert Holds(b, discs[0]) && Holds(b, discs[1]) && Holds(b, discs[2]) && Holds(b, discs[3]);
    BlendInside(step as real / 64.0, z.start.x, z.control1.x, z.control2.x, z.end.x, b.low.x, b.high.x);
    BlendInside(step as real / 64.0, z.start.y, z.control1.y, z.control2.y, z.end.y, b.low.y, b.high.y);
  }

  lemma SamplesInside(g: Trig, b: Box, segment: Segment)
    requires IsTrig(g) && HoldsAll(b, Discs(g, segment))
    ensures AllInBox(b, Samples(g, segment))
  {
    assert g.tau > 0.0;
    hide ArcSteps, ArcSample, BezierSample, IsTrig, InBox;
    var samples := Samples(g, segment);
    forall i | 0 <= i < |samples|
      ensures InBox(b, samples[i])
    {
      match segment
      case Line(_, _) =>
        StartInside(g, b, segment);
      case Arc(_, _, _, _) =>
        ArcInside(g, b, segment, i);
      case Bezier(_, _, _, _) =>
        BezierInside(g, b, segment, i);
    }
  }

  lemma StartInside(g: Trig, b: Box, line: Segment)
    requires line.Line? && HoldsAll(b, Discs(g, line))
    ensures InBox(b, line.start)
  {
    assert Holds(b, Discs(g, line)[0]);
  }

  lemma {:induction false} FlattenInside(g: Trig, b: Box, segments: seq<Segment>)
    requires IsTrig(g) && HoldsAll(b, AllDiscs(g, segments))
    ensures AllInBox(b, Flatten(g, segments))
    decreases |segments|
  {
    hide IsTrig, Samples, Discs, InBox, Holds;
    if segments != [] {
      var n := |segments| - 1;
      var (before, last) := (AllDiscs(g, segments[..n]), Discs(g, segments[n]));
      assert forall i :: 0 <= i < |before| ==> before[i] == AllDiscs(g, segments)[i];
      assert forall i :: 0 <= i < |last| ==> last[i] == AllDiscs(g, segments)[|before| + i];
      FlattenInside(g, b, segments[..n]);
      SamplesInside(g, b, segments[n]);
    }
  }

  /** A flattened loop never contains a point whose distance from the loop's
      bounds exceeds the tolerance, off a side or off a corner. */
  lemma FarFromLoop(g: Trig, segments: seq<Segment>, b: Box, p: Vec2, tolerance: real)
    requires IsTrig(g) && tolerance >= 0.0
    requires Bounds(Some(b), AllDiscs(g, segments)) && Beyond(g.hypot, b, p, tolerance)
    ensures !Within(g.hypot, Flatten(g, segments), p, tolerance)
  {
    FlattenInside(g, b, segments);
    hide Bounds, AllDiscs, Flatten, Within, Beyond, AllInBox;
    FarIsOutside(g.hypot, b, Flatten(g, segments), p, tolerance);
  }

  // ---------------------------------------------------------------- joints

  lemma ArcStart(g: Trig, arc: Segment)
    requires IsTrig(g) && arc.Arc?
    ensures ArcSample(g, arc, 0) == arc.start
  {
    hide ArcSteps, Sweep;
    NoTurn(Sweep(g, arc), ArcSteps(g, arc));
    PolarForm(g, arc.start.x - arc.center.x, arc.start.y - arc.center.y);
    hide IsTrig;
  }

  lemma NoTurn(sweep: real, steps: nat)
    requires steps > 0
    ensures sweep * 0 as real / steps as real == 0.0
  {
  }

  lemma PolarForm(g: Trig, x: real, y: real)
    requires IsTrig(g)
    ensures g.hypot(x, y) * g.cos(g.atan2(y, x)) == x && g.hypot(x, y) * g.sin(g.atan2(y, x)) == y
  {
  }

  lemma BlendStart(a: real, b: real, c: real, d: real)
    ensures Blend(0.0, a, b, c, d) == a
  {
  }

  /** The flattened loop passes through the start of every segment. */
  lemma SamplesStart(g: Trig, segment: Segment)
    requires IsTrig(g) && !segment.Spline?
    ensures |Samples(g, segment)| > 0 && Samples(g, segment)[0] == segment.start
  {
    assert g.tau > 0.0;
    hide ArcSteps, Sweep, ArcSample, IsTrig, Blend;
    match segment
    case Line(_, _) =>
    case Arc(_, _, _, _) =>
      ArcStart(g, segment);
    case Bezier(p, q, r, s) =>
      assert 0 as real / 64.0 == 0.0;
      BlendStart(p.x, q.x, r.x, s.x);
      BlendStart(p.y, q.y, r.y, s.y);
  }
}
