/** Measure, first and second moments of segments, triangles and tetrahedra,
    and why cutting a mesh leaves them unchanged. */
module Moments {
  import opened RealVectors
  import opened Linalg

  // ---------------------------------------------------------------- moments of a simplex

  /** second[axis * 3 + other] is the moment of the product of two coordinates. */
  datatype Moment = Moment(measure: real, first: Vector, second: Vector)

  predicate IsMoment(m: Moment) {
    |m.first| == 3 && |m.second| == 9
  }

  const ZERO_MOMENT := Moment(0.0, [0.0, 0.0, 0.0], [0.0, 0.0, 0.0, 0.0, 0.0, 0.0, 0.0, 0.0, 0.0])

  function Plus(a: Moment, b: Moment): (r: Moment)
    requires IsMoment(a) && IsMoment(b)
    ensures IsMoment(r)
  {
    Moment(a.measure + b.measure,
           seq(3, i requires 0 <= i < 3 => a.first[i] + b.first[i]),
           seq(9, i requires 0 <= i < 9 => a.second[i] + b.second[i]))
  }

  /** Sum of one coordinate over the vertices. */
  function Sum(vs: seq<Vec3>, axis: nat): real
    requires axis < 3
  {
    if |vs| == 0 then 0.0 else Sum(vs[..|vs| - 1], axis) + vs[|vs| - 1].Axis(axis)
  }

  /** Sum of the product of two coordinates over the vertices. */
  function Diagonal(vs: seq<Vec3>, axis: nat, other: nat): real
    requires axis < 3 && other < 3
  {
    if |vs| == 0 then 0.0
    else Diagonal(vs[..|vs| - 1], axis, other) + vs[|vs| - 1].Axis(axis) * vs[|vs| - 1].Axis(other)
  }

  function Quadratic(vs: seq<Vec3>, axis: nat, other: nat): real
    requires axis < 3 && other < 3
  {
    Sum(vs, axis) * Sum(vs, other) + Diagonal(vs, axis, other)
  }

  function FirstEntry(measure: real, vs: seq<Vec3>, axis: nat): real
    requires |vs| > 0 && axis < 3
  {
    measure * Sum(vs, axis) / (|vs| as real)
  }

  function SecondEntry(measure: real, vs: seq<Vec3>, axis: nat, other: nat): real
    requires |vs| > 0 && axis < 3 && other < 3
  {
    measure * Quadratic(vs, axis, other) / ((|vs| * (|vs| + 1)) as real)
  }

  /** Moments of the uniform simplex on `vs`: one formula for every dimension. */
  function SimplexMoment(measure: real, vs: seq<Vec3>): (r: Moment)
    requires |vs| > 0
    ensures IsMoment(r)
  {
    Moment(measure,
           seq(3, i requires 0 <= i < 3 => FirstEntry(measure, vs, i)),
           seq(9, i requires 0 <= i < 9 => SecondEntry(measure, vs, i / 3, i % 3)))
  }

  // ---------------------------------------------------------------- measures

  /** Length, area or volume, by the number of vertices. */
  function Measure(sqrt: real -> real, vs: seq<Vec3>): real
    requires 2 <= |vs| <= 4
  {
    if |vs| == 2 then Length(sqrt, Sub(vs[1], vs[0]))
    else if |vs| == 3 then Length(sqrt, Cross(Sub(vs[1], vs[0]), Sub(vs[2], vs[0]))) * 0.5
    else Abs(Determinant(Mat3(Sub(vs[1], vs[0]), Sub(vs[2], vs[0]), Sub(vs[3], vs[0])))) / 6.0
  }

  /** The point at fraction `s` from `p` to `q`. */
  function Between(p: Vec3, q: Vec3, s: real): Vec3 {
    Add(p, Scale(Sub(q, p), s))
  }

  lemma LengthScales(sqrt: real -> real, v: Vec3, w: Vec3, s: real)
    requires IsSqrt(sqrt) && s >= 0.0 && w == Scale(v, s)
    ensures Length(sqrt, w) == s * Length(sqrt, v)
  {
    var d := Dot3(v, v);
    assert Dot3(w, w) == (s * s) * d;
    NonNegativeSquares(v);
    NonNegativeSquares(w);
    var a, b := sqrt(Dot3(w, w)), s * sqrt(d);
    assert b * b == (s * s) * (sqrt(d) * sqrt(d));
    RootUnique(a, b);
  }

  lemma NonNegativeSquares(v: Vec3)
    ensures Dot3(v, v) >= 0.0
  {
    assert v.x * v.x >= 0.0 && v.y * v.y >= 0.0 && v.z * v.z >= 0.0;
  }

  lemma LengthOfNegation(sqrt: real -> real, v: Vec3, w: Vec3)
    requires w == Vec3(-v.x, -v.y, -v.z)
    ensures Length(sqrt, w) == Length(sqrt, v)
  {
    assert Dot3(w, w) == Dot3(v, v);
  }

  // Each measure keeps its value when two vertices trade places, and scales by
  // s when the second vertex moves to the fraction s of the edge from the first.

  function Extent(sqrt: real -> real, a: Vec3, b: Vec3): real {
    Length(sqrt, Sub(b, a))
  }

  lemma ExtentSwap(sqrt: real -> real, a: Vec3, b: Vec3)
    ensures Extent(sqrt, b, a) == Extent(sqrt, a, b)
  {
    LengthOfNegation(sqrt, Sub(b, a), Sub(a, b));
  }

  lemma ExtentCut(sqrt: real -> real, a: Vec3, b: Vec3, s: real)
    requires IsSqrt(sqrt) && s >= 0.0
    ensures Extent(sqrt, a, Between(a, b, s)) == s * Extent(sqrt, a, b)
  {
    assert Sub(Between(a, b, s), a) == Scale(Sub(b, a), s);
    LengthScales(sqrt, Sub(b, a), Sub(Between(a, b, s), a), s);
  }

  /** Area of a triangle. */
  function Area(sqrt: real -> real, a: Vec3, b: Vec3, c: Vec3): real {
    Length(sqrt, Cross(Sub(b, a), Sub(c, a))) * 0.5
  }

  lemma CrossIs(a: Vec3, b: Vec3)
    ensures Cross(a, b) == Vec3(a.y * b.z - a.z * b.y, a.z * b.x - a.x * b.z, a.x * b.y - a.y * b.x)
  {
  }

  lemma SwapMinor(x: real, y: real, p: real, q: real)
    ensures (-x) * (q - y) - (-y) * (p - x) == -(x * q - y * p)
  {
  }

  lemma AreaSwaps(sqrt: real -> real, a: Vec3, b: Vec3, c: Vec3)
    ensures Area(sqrt, b, a, c) == Area(sqrt, a, b, c)
    ensures Area(sqrt, a, c, b) == Area(sqrt, a, b, c)
  {
    var u, v := Sub(b, a), Sub(c, a);
    var u', v' := Sub(a, b), Sub(c, b);
    assert u' == Vec3(-u.x, -u.y, -u.z) && v' == Sub(v, u);
    CrossIs(u, v);
    CrossIs(u', v');
    CrossIs(v, u);
    SwapMinor(u.y, u.z, v.y, v.z);
    SwapMinor(u.z, u.x, v.z, v.x);
    SwapMinor(u.x, u.y, v.x, v.y);
    LengthOfNegation(sqrt, Cross(u, v), Cross(u', v'));
    LengthOfNegation(sqrt, Cross(u, v), Cross(v, u));
  }

  lemma ScaledMinor(x: real, y: real, p: real, q: real, s: real, xs: real, ys: real)
    requires xs == x * s && ys == y * s
    ensures xs * q - ys * p == (x * q - y * p) * s
  {
    assert xs * q == (x * q) * s;
    assert ys * p == (y * p) * s;
  }

  lemma AreaCut(sqrt: real -> real, a: Vec3, b: Vec3, c: Vec3, s: real)
    requires IsSqrt(sqrt) && s >= 0.0
    ensures Area(sqrt, a, Between(a, b, s), c) == s * Area(sqrt, a, b, c)
  {
    hide Cross, IsSqrt;
    var u, v := Sub(b, a), Sub(c, a);
    var w := Sub(Between(a, b, s), a);
    assert w == Scale(u, s);
    CrossScaled(u, v, w, s);
    LengthScales(sqrt, Cross(u, v), Cross(w, v), s);
  }

  lemma CrossScaled(u: Vec3, v: Vec3, w: Vec3, s: real)
    requires w == Scale(u, s)
    ensures Cross(w, v) == Scale(Cross(u, v), s)
  {
    hide Cross, Scale;
    CrossIs(u, v);
    CrossIs(w, v);
    ScaleComponents(u, s);
    ScaleComponents(Cross(u, v), s);
    ScaledMinor(u.y, u.z, v.y, v.z, s, w.y, w.z);
    ScaledMinor(u.z, u.x, v.z, v.x, s, w.z, w.x);
    ScaledMinor(u.x, u.y, v.x, v.y, s, w.x, w.y);
  }

  function Triple(a: Vec3, b: Vec3, c: Vec3): real {
    Dot3(a, Cross(b, c))
  }

  function Volume(a: Vec3, b: Vec3, c: Vec3, d: Vec3): real {
    Abs(Determinant(Mat3(Sub(b, a), Sub(c, a), Sub(d, a)))) / 6.0
  }

  lemma TripleSwap(a: Vec3, b: Vec3, c: Vec3)
    ensures Triple(b, a, c) == -Triple(a, b, c)
    ensures Triple(a, c, b) == -Triple(a, b, c)
  {
    TripleExpanded(a, b, c);
    TripleExpanded(b, a, c);
    TripleExpanded(a, c, b);
    hide Dot3, Cross;
  }

  lemma OriginScalars(a0: real, a1: real, a2: real, b0: real, b1: real, b2: real, c0: real, c1: real, c2: real)
    ensures (-a0) * (b1 - a1) * (c2 - a2) - (-a0) * (b2 - a2) * (c1 - a1) + (-a1) * (b2 - a2) * (c0 - a0)
          - (-a1) * (b0 - a0) * (c2 - a2) + (-a2) * (b0 - a0) * (c1 - a1) - (-a2) * (b1 - a1) * (c0 - a0)
         == -(a0 * b1 * c2 - a0 * b2 * c1 + a1 * b2 * c0 - a1 * b0 * c2 + a2 * b0 * c1 - a2 * b1 * c0)
  {
  }

  /** Measuring from the other end of the first edge turns the sign. */
  lemma TripleOrigin(a: Vec3, b: Vec3, c: Vec3, a': Vec3, b': Vec3, c': Vec3)
    requires a' == Vec3(-a.x, -a.y, -a.z) && b' == Sub(b, a) && c' == Sub(c, a)
    ensures Triple(a', b', c') == -Triple(a, b, c)
  {
    TripleExpanded(a, b, c);
    TripleExpanded(a', b', c');
    hide Dot3, Cross;
    OriginScalars(a.x, a.y, a.z, b.x, b.y, b.z, c.x, c.y, c.z);
  }

  lemma VolumeSwaps(a: Vec3, b: Vec3, c: Vec3, d: Vec3)
    ensures Volume(b, a, c, d) == Volume(a, b, c, d)
    ensures Volume(a, c, b, d) == Volume(a, b, c, d)
    ensures Volume(a, b, d, c) == Volume(a, b, c, d)
  {
    var u, v, w := Sub(b, a), Sub(c, a), Sub(d, a);
    TripleSwap(u, v, w);
    TripleOrigin(u, v, w, Sub(a, b), Sub(c, b), Sub(d, b));
    hide Dot3, Cross;
  }

  lemma VolumeCut(a: Vec3, b: Vec3, c: Vec3, d: Vec3, s: real)
    requires s >= 0.0
    ensures Volume(a, Between(a, b, s), c, d) == s * Volume(a, b, c, d)
  {
    var u, v, w := Sub(b, a), Sub(c, a), Sub(d, a);
    var u' := Sub(Between(a, b, s), a);
    assert u' == Scale(u, s);
    hide Cross;
    var x := Cross(v, w);
    assert Dot3(u', x) == s * Dot3(u, x);
    hide Dot3;
    ScaledAbs(s, Triple(u, v, w));
  }

  lemma ScaledAbs(s: real, x: real)
    requires s >= 0.0
    ensures Abs(s * x) / 6.0 == s * (Abs(x) / 6.0)
  {
    if x >= 0.0 {
      assert s * x >= 0.0;
    } else {
      assert s * x <= 0.0;
    }
  }

  // ---------------------------------------------------------------- cutting a simplex

  /** `k` and `l` are the vertices other than i and j. */
  predicate Rest4(i: nat, j: nat, k: nat, l: nat) {
    i < 4 && j < 4 && k < 4 && l < 4 && i != j && i != k && i != l && j != k && j != l && k != l
  }

  lemma {:induction false} VolumeFrom(vs: seq<Vec3>, i: nat, j: nat, k: nat, l: nat)
    requires |vs| == 4 && Rest4(i, j, k, l)
    ensures Volume(vs[i], vs[j], vs[k], vs[l]) == Volume(vs[0], vs[1], vs[2], vs[3])
    decreases 3 * i + 2 * j + k
  {
    VolumeSwaps(vs[i], vs[j], vs[k], vs[l]);
    hide Volume;
    if i > j {
      VolumeFrom(vs, j, i, k, l);
    } else if j > k {
      VolumeFrom(vs, i, k, j, l);
    } else if k > l {
      VolumeFrom(vs, i, j, l, k);
    }
  }

  lemma AreaFrom(sqrt: real -> real, vs: seq<Vec3>, i: nat, j: nat, k: nat)
    requires |vs| == 3 && i < 3 && j < 3 && k < 3 && i != j && i != k && j != k
    ensures Area(sqrt, vs[i], vs[j], vs[k]) == Area(sqrt, vs[0], vs[1], vs[2])
  {
    forall a, b, c
      ensures Area(sqrt, a, b, c) == Area(sqrt, b, a, c) == Area(sqrt, a, c, b)
    {
      AreaSwaps(sqrt, a, b, c);
    }
    hide Area;
  }

  lemma MeasureIs(sqrt: real -> real, vs: seq<Vec3>)
    requires 2 <= |vs| <= 4
    ensures |vs| == 2 ==> Measure(sqrt, vs) == Extent(sqrt, vs[0], vs[1])
    ensures |vs| == 3 ==> Measure(sqrt, vs) == Area(sqrt, vs[0], vs[1], vs[2])
    ensures |vs| == 4 ==> Measure(sqrt, vs) == Volume(vs[0], vs[1], vs[2], vs[3])
  {
    hide Length, Determinant;
  }

  /** Moving vertex j to the fraction s of the edge from i scales the measure by s. */
  lemma MeasureCut(sqrt: real -> real, vs: seq<Vec3>, i: nat, j: nat, s: real)
    requires IsSqrt(sqrt) && 2 <= |vs| <= 4 && i < |vs| && j < |vs| && i != j && s >= 0.0
    ensures Measure(sqrt, vs[j := Between(vs[i], vs[j], s)]) == s * Measure(sqrt, vs)
  {
    hide Measure, Extent, Area, Volume, Between, IsSqrt;
    var p := Between(vs[i], vs[j], s);
    var vs' := vs[j := p];
    MeasureIs(sqrt, vs);
    MeasureIs(sqrt, vs');
    if |vs| == 2 {
      ExtentSwap(sqrt, vs[0], vs[1]);
      ExtentSwap(sqrt, vs[i], p);
      ExtentCut(sqrt, vs[i], vs[j], s);
    } else if |vs| == 3 {
      var k := 3 - i - j;
      AreaFrom(sqrt, vs, i, j, k);
      AreaFrom(sqrt, vs', i, j, k);
      AreaCut(sqrt, vs[i], vs[j], vs[k], s);
    } else {
      var k := if i != 0 && j != 0 then 0 else if i != 1 && j != 1 then 1 else 2;
      var l := 6 - i - j - k;
      VolumeFrom(vs, i, j, k, l);
      VolumeFrom(vs', i, j, k, l);
      VolumeCut(vs[i], vs[j], vs[k], vs[l], s);
    }
  }

  lemma BetweenReversed(p: Vec3, q: Vec3, s: real)
    ensures Between(q, p, 1.0 - s) == Between(p, q, s)
  {
  }

  lemma {:induction false} SumUpdate(vs: seq<Vec3>, at: nat, p: Vec3, axis: nat)
    requires at < |vs| && axis < 3
    ensures Sum(vs[at := p], axis) == Sum(vs, axis) - vs[at].Axis(axis) + p.Axis(axis)
    decreases |vs|
  {
    var n := |vs| - 1;
    if at == n {
      assert vs[at := p][..n] == vs[..n];
    } else {
      SumUpdate(vs[..n], at, p, axis);
      assert vs[at := p][..n] == vs[..n][at := p];
    }
  }

  lemma {:induction false} DiagonalUpdate(vs: seq<Vec3>, at: nat, p: Vec3, axis: nat, other: nat)
    requires at < |vs| && axis < 3 && other < 3
    ensures Diagonal(vs[at := p], axis, other)
         == Diagonal(vs, axis, other) - vs[at].Axis(axis) * vs[at].Axis(other) + p.Axis(axis) * p.Axis(other)
    decreases |vs|
  {
    var n := |vs| - 1;
    if at == n {
      assert vs[at := p][..n] == vs[..n];
    } else {
      DiagonalUpdate(vs[..n], at, p, axis, other);
      assert vs[at := p][..n] == vs[..n][at := p];
    }
  }

  lemma BetweenAxis(p: Vec3, q: Vec3, s: real, axis: nat)
    requires axis < 3
    ensures Between(p, q, s).Axis(axis) == p.Axis(axis) + (q.Axis(axis) - p.Axis(axis)) * s
  {
  }

  lemma FirstScalars(m: real, s: real, sum: real, xi: real, xj: real, xp: real)
    requires xp == xi + (xj - xi) * s
    ensures (s * m) * (sum - xj + xp) + ((1.0 - s) * m) * (sum - xi + xp) == m * sum
  {
    var a, b := sum - xj + xp, sum - xi + xp;
    assert s * a + (1.0 - s) * b == sum;
    assert (s * m) * a + ((1.0 - s) * m) * b == m * (s * a + (1.0 - s) * b);
  }

  lemma SecondScalars(m: real, s: real, sx: real, sy: real, d: real, xi: real, xj: real, xp: real, yi: real, yj: real, yp: real,
                      ax: real, ay: real, ad: real, bx: real, b1: real, bd: real)
    requires xp == xi + (xj - xi) * s && yp == yi + (yj - yi) * s
    requires ax == sx - xj + xp && ay == sy - yj + yp && ad == d - xj * yj + xp * yp
    requires bx == sx - xi + xp && b1 == sy - yi + yp && bd == d - xi * yi + xp * yp
    ensures (s * m) * (ax * ay + ad) + ((1.0 - s) * m) * (bx * b1 + bd) == m * (sx * sy + d)
  {
    var f, g := ax * ay + ad, bx * b1 + bd;
    SecondCore(s, sx, sy, d, xi, xj, xp, yi, yj, yp);
    assert f == (sx - xj + xp) * (sy - yj + yp) + (d - xj * yj + xp * yp);
    assert g == (sx - xi + xp) * (sy - yi + yp) + (d - xi * yi + xp * yp);
    ThroughFactor(s, m, f, g, sx * sy + d);
  }

  lemma ThroughFactor(s: real, m: real, f: real, g: real, h: real)
    requires s * f + (1.0 - s) * g == h
    ensures (s * m) * f + ((1.0 - s) * m) * g == m * h
  {
    assert (s * m) * f + ((1.0 - s) * m) * g == m * (s * f + (1.0 - s) * g);
  }

  lemma SecondCore(s: real, sx: real, sy: real, d: real, xi: real, xj: real, xp: real, yi: real, yj: real, yp: real)
    requires xp == xi + (xj - xi) * s && yp == yi + (yj - yi) * s
    ensures s * ((sx - xj + xp) * (sy - yj + yp) + (d - xj * yj + xp * yp))
          + (1.0 - s) * ((sx - xi + xp) * (sy - yi + yp) + (d - xi * yi + xp * yp))
         == sx * sy + d
  {
    var u, v, t := xj - xi, yj - yi, 1.0 - s;
    assert sx - xj + xp == sx - t * u && sy - yj + yp == sy - t * v;
    assert sx - xi + xp == sx + s * u && sy - yi + yp == sy + s * v;
    assert xp == xj - t * u && yp == yj - t * v;
    assert xp * yp - xj * yj == -t * (u * yj + v * xj) + t * t * (u * v);
    assert xp * yp - xi * yi == s * (u * yi + v * xi) + s * s * (u * v);
    assert (sx - t * u) * (sy - t * v) == sx * sy - t * (u * sy + v * sx) + t * t * (u * v);
    assert (sx + s * u) * (sy + s * v) == sx * sy + s * (u * sy + v * sx) + s * s * (u * v);
    SecondAlgebra(s, t, sx * sy, d, u * sy + v * sx, u * v, u * yj + v * xj, u * yi + v * xi);
    assert u * yj + v * xj - (u * yi + v * xi) == 2.0 * (u * v);
  }

  lemma SecondAlgebra(s: real, t: real, q: real, d: real, c: real, w: real, ej: real, ei: real)
    requires t == 1.0 - s && ej - ei == 2.0 * w
    ensures s * ((q - t * c + t * t * w) + (d - t * ej + t * t * w)) + t * ((q + s * c + s * s * w) + (d + s * ei + s * s * w)) == q + d
  {
  }

  lemma QuadraticIs(vs: seq<Vec3>, axis: nat, other: nat, x: real, y: real, d: real)
    requires axis < 3 && other < 3
    requires x == Sum(vs, axis) && y == Sum(vs, other) && d == Diagonal(vs, axis, other)
    ensures Quadratic(vs, axis, other) == x * y + d
  {
    hide Sum, Diagonal;
  }

  lemma CutQuadratic(measure: real, vs: seq<Vec3>, i: nat, j: nat, s: real, axis: nat, other: nat)
    requires i < |vs| && j < |vs| && i != j && axis < 3 && other < 3
    ensures var p := Between(vs[i], vs[j], s);
            (s * measure) * Quadratic(vs[j := p], axis, other) + ((1.0 - s) * measure) * Quadratic(vs[i := p], axis, other)
            == measure * Quadratic(vs, axis, other)
  {
    hide Quadratic, Sum, Diagonal, Between;
    var p := Between(vs[i], vs[j], s);
    var a, b := vs[j := p], vs[i := p];
    SumUpdate(vs, j, p, axis);
    SumUpdate(vs, j, p, other);
    DiagonalUpdate(vs, j, p, axis, other);
    SumUpdate(vs, i, p, axis);
    SumUpdate(vs, i, p, other);
    DiagonalUpdate(vs, i, p, axis, other);
    BetweenAxis(vs[i], vs[j], s, axis);
    BetweenAxis(vs[i], vs[j], s, other);
    QuadraticIs(vs, axis, other, Sum(vs, axis), Sum(vs, other), Diagonal(vs, axis, other));
    QuadraticIs(a, axis, other, Sum(a, axis), Sum(a, other), Diagonal(a, axis, other));
    QuadraticIs(b, axis, other, Sum(b, axis), Sum(b, other), Diagonal(b, axis, other));
    SecondScalars(measure, s, Sum(vs, axis), Sum(vs, other), Diagonal(vs, axis, other),
                  vs[i].Axis(axis), vs[j].Axis(axis), p.Axis(axis), vs[i].Axis(other), vs[j].Axis(other), p.Axis(other),
                  Sum(a, axis), Sum(a, other), Diagonal(a, axis, other), Sum(b, axis), Sum(b, other), Diagonal(b, axis, other));
  }

  lemma CutSum(measure: real, vs: seq<Vec3>, i: nat, j: nat, s: real, axis: nat)
    requires i < |vs| && j < |vs| && i != j && axis < 3
    ensures var p := Between(vs[i], vs[j], s);
            (s * measure) * Sum(vs[j := p], axis) + ((1.0 - s) * measure) * Sum(vs[i := p], axis) == measure * Sum(vs, axis)
  {
    hide Sum, Between;
    var p := Between(vs[i], vs[j], s);
    SumUpdate(vs, j, p, axis);
    SumUpdate(vs, i, p, axis);
    BetweenAxis(vs[i], vs[j], s, axis);
    FirstScalars(measure, s, Sum(vs, axis), vs[i].Axis(axis), vs[j].Axis(axis), p.Axis(axis));
  }

  lemma CommonDenominator(a: real, b: real, c: real, n: real)
    requires n != 0.0 && a + b == c
    ensures a / n + b / n == c / n
  {
  }

  lemma CutFirst(measure: real, vs: seq<Vec3>, i: nat, j: nat, s: real, axis: nat)
    requires i < |vs| && j < |vs| && i != j && axis < 3
    ensures var p := Between(vs[i], vs[j], s);
            FirstEntry(s * measure, vs[j := p], axis) + FirstEntry((1.0 - s) * measure, vs[i := p], axis) == FirstEntry(measure, vs, axis)
  {
    hide Sum, Between;
    var p := Between(vs[i], vs[j], s);
    CutSum(measure, vs, i, j, s, axis);
    CommonDenominator((s * measure) * Sum(vs[j := p], axis), ((1.0 - s) * measure) * Sum(vs[i := p], axis),
                      measure * Sum(vs, axis), |vs| as real);
  }

  lemma CutSecond(measure: real, vs: seq<Vec3>, i: nat, j: nat, s: real, axis: nat, other: nat)
    requires i < |vs| && j < |vs| && i != j && axis < 3 && other < 3
    ensures var p := Between(vs[i], vs[j], s);
            SecondEntry(s * measure, vs[j := p], axis, other) + SecondEntry((1.0 - s) * measure, vs[i := p], axis, other)
            == SecondEntry(measure, vs, axis, other)
  {
    hide Quadratic, Between;
    var p := Between(vs[i], vs[j], s);
    CutQuadratic(measure, vs, i, j, s, axis, other);
    CommonDenominator((s * measure) * Quadratic(vs[j := p], axis, other), ((1.0 - s) * measure) * Quadratic(vs[i := p], axis, other),
                      measure * Quadratic(vs, axis, other), (|vs| * (|vs| + 1)) as real);
  }

  /** Cutting a simplex at a point of one of its edges leaves every moment unchanged. */
  lemma CutMoment(measure: real, vs: seq<Vec3>, i: nat, j: nat, s: real)
    requires i < |vs| && j < |vs| && i != j
    ensures var p := Between(vs[i], vs[j], s);
            Plus(SimplexMoment(s * measure, vs[j := p]), SimplexMoment((1.0 - s) * measure, vs[i := p])) == SimplexMoment(measure, vs)
  {
    hide FirstEntry, SecondEntry, Between;
    var p := Between(vs[i], vs[j], s);
    forall axis | 0 <= axis < 3
      ensures FirstEntry(s * measure, vs[j := p], axis) + FirstEntry((1.0 - s) * measure, vs[i := p], axis) == FirstEntry(measure, vs, axis)
    {
      CutFirst(measure, vs, i, j, s, axis);
    }
    forall k | 0 <= k < 9
      ensures SecondEntry(s * measure, vs[j := p], k / 3, k % 3) + SecondEntry((1.0 - s) * measure, vs[i := p], k / 3, k % 3)
           == SecondEntry(measure, vs, k / 3, k % 3)
    {
      CutSecond(measure, vs, i, j, s, k / 3, k % 3);
    }
    assert s * measure + (1.0 - s) * measure == measure;
  }
}
