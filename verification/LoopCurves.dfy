/** What the samples of a drawn loop are: arcs run from start to end the way
    they are drawn, in chords of at most a 1024th of a turn, and Bézier curves
    are de Casteljau's. */
module LoopCurves {
  import opened RealVectors
  import opened LoopTest
  import opened LoopOutline

  // ---------------------------------------------------------------- the sweep of an arc

  /** From the angle of the start to the angle of the end. */
  function Difference(g: Trig, arc: Segment): real
    requires arc.Arc?
  {
    Angle(g, arc.center, arc.end) - Angle(g, arc.center, arc.start)
  }

  function Turns(g: Trig, k: int): real {
    k as real * g.tau
  }

  /** The end lies in the direction of the start, up to the approximation. */
  ghost predicate Whole(g: Trig, arc: Segment)
    requires arc.Arc?
  {
    exists k: int :: Abs(Difference(g, arc) - Turns(g, k)) < APPROXIMATION
  }

  lemma RemainderRange(x: real, m: real)
    requires m > 0.0
    ensures var f := (x / m).Floor; x == RemEuclid(x, m) + f as real * m && 0.0 <= RemEuclid(x, m) < m
  {
    var (q, f) := (x / m, (x / m).Floor);
    DivideBack(m, x);
    ProductNonNegative(m, q - f as real);
    SameSigns(m, f as real + 1.0 - q, m * (f as real + 1.0 - q));
    assert x - m * f as real == m * (q - f as real);
  }

  lemma TurnsApart(g: Trig, f: int, k: int)
    requires g.tau > 0.0
    ensures Turns(g, f) - Turns(g, k) == Turns(g, f - k)
    ensures f > k ==> Turns(g, f - k) >= g.tau
    ensures f == k ==> Turns(g, f - k) == 0.0
    ensures f == k - 1 ==> Turns(g, f - k) == -g.tau
    ensures f < k - 1 ==> Turns(g, f - k) <= -2.0 * g.tau
  {
    if f > k {
      ProductNonNegative((f - k) as real - 1.0, g.tau);
    } else if f < k - 1 {
      ProductNonNegative((k - f) as real - 2.0, g.tau);
    }
  }

  lemma WholeExactly(g: Trig, arc: Segment, ccw: real, f: int)
    requires arc.Arc? && g.tau > 0.0 && Difference(g, arc) == ccw + Turns(g, f) && 0.0 <= ccw < g.tau
    ensures Whole(g, arc) <==> ccw < APPROXIMATION || g.tau - ccw < APPROXIMATION
  {
    hide Difference;
    TurnsApart(g, f, f);
    TurnsApart(g, f, f + 1);
    hide Turns;
    if ccw < APPROXIMATION {
      assert Abs(Difference(g, arc) - Turns(g, f)) < APPROXIMATION;
    }
    if g.tau - ccw < APPROXIMATION {
      assert Abs(Difference(g, arc) - Turns(g, f + 1)) < APPROXIMATION;
    }
    if k: int :| Abs(Difference(g, arc) - Turns(g, k)) < APPROXIMATION {
      TurnsApart(g, f, k);
    }
  }

  /** An arc turns the way it is drawn, by a whole turn when its end is where
      its start is, and else by less than that and up to its end. */
  lemma SweepMeans(g: Trig, arc: Segment)
    requires arc.Arc? && g.tau > 0.0
    ensures Whole(g, arc) ==> Sweep(g, arc) == if arc.clockwise then -g.tau else g.tau
    ensures !Whole(g, arc) ==> if arc.clockwise then -g.tau < Sweep(g, arc) < 0.0 else 0.0 < Sweep(g, arc) < g.tau
    ensures !Whole(g, arc) ==> exists k: int :: Sweep(g, arc) == Difference(g, arc) + Turns(g, k)
  {
    var d := Difference(g, arc);
    var (ccw, f) := (RemEuclid(d, g.tau), (d / g.tau).Floor);
    RemainderRange(d, g.tau);
    assert d == ccw + Turns(g, f);
    WholeExactly(g, arc, ccw, f);
    TurnsApart(g, 0, f);
    TurnsApart(g, 0, f + 1);
    TurnsApart(g, f, f + 1);
    assert Turns(g, 0) == 0.0;
    hide RemEuclid, Angle, Turns, Whole;
    if !Whole(g, arc) {
      if arc.clockwise {
        assert Sweep(g, arc) == d + Turns(g, -f - 1);
      } else {
        assert Sweep(g, arc) == d + Turns(g, -f);
      }
    }
  }

  lemma SweepSize(g: Trig, arc: Segment)
    requires arc.Arc? && g.tau > 0.0
    ensures 0.0 < Abs(Sweep(g, arc)) <= g.tau
  {
    SweepMeans(g, arc);
    hide Sweep;
  }

  lemma StepsFit(n: nat, wanted: real)
    requires 1 <= n && n == FindSteps(1, wanted)
    ensures n < 1024 ==> Reaches(n, wanted)
    ensures forall m: nat :: 1 <= m < n ==> !Reaches(m, wanted)
  {
  }

  /** Each chord spans at most a 1024th of a turn, and no fewer chords would do. */
  lemma ChordsFit(g: Trig, arc: Segment)
    requires arc.Arc? && g.tau > 0.0
    ensures 1024.0 * Abs(Sweep(g, arc)) <= Turns(g, ArcSteps(g, arc))
    ensures forall m: nat :: 1 <= m < ArcSteps(g, arc) ==> Turns(g, m) < 1024.0 * Abs(Sweep(g, arc))
  {
    hide Sweep, FindSteps, Reaches, Turns;
    var (sweep, steps) := (Abs(Sweep(g, arc)), ArcSteps(g, arc));
    SweepSize(g, arc);
    StepsFit(steps, sweep / g.tau * 1024.0);
    Wanted(g, sweep, steps);
    forall m: nat | 1 <= m < steps
      ensures Turns(g, m) < 1024.0 * sweep
    {
      Wanted(g, sweep, m);
    }
  }

  lemma Wanted(g: Trig, sweep: real, m: nat)
    requires 0.0 < sweep <= g.tau
    ensures Reaches(m, sweep / g.tau * 1024.0) <==> 1024.0 * sweep <= Turns(g, m)
    ensures m == 1024 ==> 1024.0 * sweep <= Turns(g, m)
  {
    var tau := g.tau;
    var q := sweep / tau;
    DivideBack(tau, sweep);
    var x := m as real - q * 1024.0;
    assert m as real * tau - 1024.0 * sweep == tau * x;
    if x >= 0.0 {
      ProductNonNegative(tau, x);
    } else {
      SameSigns(tau, -x, tau * (-x));
    }
  }

  // ---------------------------------------------------------------- where the samples are

  /** Angles a whole number of turns apart are the same direction. */
  ghost predicate Periodic(g: Trig) {
    forall a, k: int :: g.cos(a + Turns(g, k)) == g.cos(a) && g.sin(a + Turns(g, k)) == g.sin(a)
  }

  /** The angles advance evenly, by the sweep in all. */
  lemma AnglesAdvance(g: Trig, arc: Segment, step: nat)
    requires arc.Arc? && g.tau > 0.0
    ensures (ArcAngle(g, arc, step) - Angle(g, arc.center, arc.start)) * ArcSteps(g, arc) as real == step as real * Sweep(g, arc)
  {
    hide Angle, Sweep, ArcSteps;
    var (s, n) := (Sweep(g, arc), ArcSteps(g, arc) as real);
    DivideBack(n, s * step as real);
  }

  lemma LastAngle(g: Trig, arc: Segment)
    requires arc.Arc? && g.tau > 0.0
    ensures ArcAngle(g, arc, ArcSteps(g, arc)) == Angle(g, arc.center, arc.start) + Sweep(g, arc)
  {
    hide Angle, Sweep, ArcSteps;
    CancelQuotient(Sweep(g, arc), ArcSteps(g, arc) as real);
  }

  lemma CancelQuotient(x: real, n: real)
    requires n != 0.0
    ensures x * n / n == x
  {
  }

  lemma PolarForm(g: Trig, center: Vec2, p: Vec2)
    requires IsTrig(g)
    ensures OnCircle(g, center, Radius(g, center, p), Angle(g, center, p)) == p
  {
  }

  lemma SameDirection(g: Trig, center: Vec2, radius: real, a: real, k: int)
    requires Periodic(g)
    ensures OnCircle(g, center, radius, a + Turns(g, k)) == OnCircle(g, center, radius, a)
  {
    hide Turns, OnCircle;
    var b := a + Turns(g, k);
    assert g.cos(b) == g.cos(a) && g.sin(b) == g.sin(a);
    CircleAt(g, center, radius, a, g.cos(a), g.sin(a));
    CircleAt(g, center, radius, b, g.cos(a), g.sin(a));
  }

  lemma CircleAt(g: Trig, center: Vec2, radius: real, a: real, c: real, s: real)
    requires g.cos(a) == c && g.sin(a) == s
    ensures OnCircle(g, center, radius, a) == Vec2(center.x + Product(radius, c), center.y + Product(radius, s))
  {
  }

  /** The sample after an arc's last one is its end, when that lies on the
      circle around its center. */
  lemma ArcReachesEnd(g: Trig, arc: Segment)
    requires IsTrig(g) && Periodic(g) && arc.Arc? && !Whole(g, arc)
    requires Radius(g, arc.center, arc.end) == Radius(g, arc.center, arc.start)
    ensures ArcSample(g, arc, ArcSteps(g, arc)) == arc.end
  {
    assert g.tau > 0.0;
    hide IsTrig, Periodic, Whole, Sweep, ArcSteps, ArcAngle, Radius, Angle, Turns, OnCircle;
    LastAngle(g, arc);
    SweepMeans(g, arc);
    PolarForm(g, arc.center, arc.end);
    var k: int :| Sweep(g, arc) == Difference(g, arc) + Turns(g, k);
    SameDirection(g, arc.center, Radius(g, arc.center, arc.end), Angle(g, arc.center, arc.end), k);
  }

  // ---------------------------------------------------------------- Bézier curves

  function Mix(t: real, a: real, b: real): real {
    a + t * (b - a)
  }

  /** De Casteljau's construction: three rounds of points along the way. */
  function Casteljau(t: real, a: real, b: real, c: real, d: real): real {
    var (p, q, r) := (Mix(t, a, b), Mix(t, b, c), Mix(t, c, d));
    Mix(t, Mix(t, p, q), Mix(t, q, r))
  }

  lemma CasteljauScalars(s: real, t: real, a: real, b: real, c: real, d: real)
    requires s == 1.0 - t
    ensures Casteljau(t, a, b, c, d) == s * s * s * a + 3.0 * s * s * t * b + 3.0 * s * t * t * c + t * t * t * d
  {
    MixIs(s, t, a, b);
    MixIs(s, t, b, c);
    MixIs(s, t, c, d);
    var (p, q, r) := (Mix(t, a, b), Mix(t, b, c), Mix(t, c, d));
    MixIs(s, t, p, q);
    MixIs(s, t, q, r);
    MixIs(s, t, Mix(t, p, q), Mix(t, q, r));
    hide Mix;
    assert s * (s * p + t * q) + t * (s * q + t * r) == s * s * p + 2.0 * s * t * q + t * t * r;
    CasteljauLast(s, t, a, b, c, d);
  }

  lemma CasteljauLast(s: real, t: real, a: real, b: real, c: real, d: real)
    ensures s * s * (s * a + t * b) + 2.0 * s * t * (s * b + t * c) + t * t * (s * c + t * d)
         == s * s * s * a + 3.0 * s * s * t * b + 3.0 * s * t * t * c + t * t * t * d
  {
  }

  lemma MixIs(s: real, t: real, a: real, b: real)
    requires s == 1.0 - t
    ensures Mix(t, a, b) == s * a + t * b
  {
  }

  lemma BlendIsCasteljau(t: real, a: real, b: real, c: real, d: real)
    ensures Blend(t, a, b, c, d) == Casteljau(t, a, b, c, d)
  {
    hide Casteljau;
    var s := 1.0 - t;
    CasteljauScalars(s, t, a, b, c, d);
  }

  /** The samples of a Bézier curve are de Casteljau's at every 64th. */
  lemma SamplesCasteljau(z: Segment, step: nat)
    requires z.Bezier?
    ensures var (t, p) := (step as real / 64.0, BezierSample(z, step));
            && p.x == Casteljau(t, z.start.x, z.control1.x, z.control2.x, z.end.x)
            && p.y == Casteljau(t, z.start.y, z.control1.y, z.control2.y, z.end.y)
  {
    hide Blend, Casteljau;
    var t := step as real / 64.0;
    BlendIsCasteljau(t, z.start.x, z.control1.x, z.control2.x, z.end.x);
    BlendIsCasteljau(t, z.start.y, z.control1.y, z.control2.y, z.end.y);
  }

  // ---------------------------------------------------------------- bounds

  /** The points a segment is drawn with. */
  predicate DrawnWith(segment: Segment, p: Vec2) {
    match segment
    case Line(a, b) => p == a || p == b
    case Arc(a, b, _, _) => p == a || p == b
    case Bezier(a, b, c, d) => p == a || p == b || p == c || p == d
    case Spline(points) => p in points
  }

  /** A segment bounds the loop by exactly the points it is drawn with, and an
      arc also by its circle. */
  lemma DiscsAreDrawn(g: Trig, segment: Segment, d: Disc)
    ensures d in Discs(g, segment) <==>
            || (DrawnWith(segment, d.center) && d.reach == 0.0)
            || (segment.Arc? && d == Disc(segment.center, g.hypot(segment.start.x - segment.center.x, segment.start.y - segment.center.y)))
  {
    if segment.Spline? && DrawnWith(segment, d.center) && d.reach == 0.0 {
      var i :| 0 <= i < |segment.points| && segment.points[i] == d.center;
      assert Discs(g, segment)[i] == d;
    }
  }
}
