/** What measures and moments of simplices mean: base times height, and the
    parallel-axis law. */
module Measures {
  import opened RealVectors
  import opened Linalg
  import opened Moments

  // ---------------------------------------------------------------- base times height

  lemma LagrangeScalars(a: real, b: real, c: real, x: real, y: real, z: real)
    ensures (b * z - c * y) * (b * z - c * y) + (c * x - a * z) * (c * x - a * z) + (a * y - b * x) * (a * y - b * x)
         == (a * a + b * b + c * c) * (x * x + y * y + z * z) - (a * x + b * y + c * z) * (a * x + b * y + c * z)
  {
  }

  lemma DotIs(u: Vec3, v: Vec3, d: real)
    requires d == u.x * v.x + u.y * v.y + u.z * v.z
    ensures Dot3(u, v) == d
  {
  }

  lemma Lagrange(u: Vec3, v: Vec3)
    ensures Dot3(Cross(u, v), Cross(u, v)) == Dot3(u, u) * Dot3(v, v) - Dot3(u, v) * Dot3(u, v)
  {
    var n := Cross(u, v);
    assert n.x == u.y * v.z - u.z * v.y && n.y == u.z * v.x - u.x * v.z && n.z == u.x * v.y - u.y * v.x;
    hide Cross;
    DotIs(n, n, n.x * n.x + n.y * n.y + n.z * n.z);
    DotIs(u, u, u.x * u.x + u.y * u.y + u.z * u.z);
    DotIs(v, v, v.x * v.x + v.y * v.y + v.z * v.z);
    DotIs(u, v, u.x * v.x + u.y * v.y + u.z * v.z);
    hide Dot3;
    LagrangeScalars(u.x, u.y, u.z, v.x, v.y, v.z);
  }

  /** The length of a vector whose square is the product of two. */
  lemma LengthProduct(sqrt: real -> real, n: Vec3, u: Vec3, v: Vec3)
    requires IsSqrt(sqrt) && Dot3(n, n) == Dot3(u, u) * Dot3(v, v)
    ensures Length(sqrt, n) == Length(sqrt, u) * Length(sqrt, v)
  {
    NonNegativeSquares(n);
    NonNegativeSquares(u);
    NonNegativeSquares(v);
    var (x, y, z) := (Dot3(n, n), Dot3(u, u), Dot3(v, v));
    hide Dot3;
    ProductOfRoots(sqrt(x), sqrt(y), sqrt(z), x, y, z);
  }

  lemma ProductOfRoots(r: real, s: real, t: real, x: real, y: real, z: real)
    requires r >= 0.0 && s >= 0.0 && t >= 0.0 && r * r == x && s * s == y && t * t == z && x == y * z
    ensures r == s * t
  {
    assert (s * t) * (s * t) == (s * s) * (t * t);
    ProductNonNegative(s, t);
    RootUnique(r, s * t);
  }

  /** h is c minus its foot on the line from a to b. */
  ghost predicate DropsOnLine(a: Vec3, b: Vec3, c: Vec3, s: real, h: Vec3) {
    h == Sub(c, Between(a, b, s)) && Dot3(Sub(b, a), h) == 0.0
  }

  lemma CrossShear(u: Vec3, v: Vec3, h: Vec3, s: real)
    requires v == Add(Scale(u, s), h)
    ensures Cross(u, v) == Cross(u, h)
  {
    ShearMinor(u.y, u.z, h.y, h.z, s);
    ShearMinor(u.z, u.x, h.z, h.x, s);
    ShearMinor(u.x, u.y, h.x, h.y, s);
  }

  lemma ShearMinor(x: real, y: real, p: real, q: real, s: real)
    ensures x * (y * s + q) - y * (x * s + p) == x * q - y * p
  {
    assert x * (y * s) == y * (x * s);
  }

  /** The area of a triangle is half of base times height. */
  lemma HalfBaseTimesHeight(sqrt: real -> real, a: Vec3, b: Vec3, c: Vec3, s: real, h: Vec3)
    requires IsSqrt(sqrt) && DropsOnLine(a, b, c, s, h)
    ensures 2.0 * Measure(sqrt, [a, b, c]) == Measure(sqrt, [a, b]) * Length(sqrt, h)
  {
    var (u, v) := (Sub(b, a), Sub(c, a));
    assert v == Add(Scale(u, s), h);
    CrossShear(u, v, h, s);
    Lagrange(u, h);
    hide Dot3, Cross, IsSqrt, Sub;
    LengthProduct(sqrt, Cross(u, h), u, h);
    hide Length;
  }

  /** h is d minus its foot in the plane of a, b and c. */
  ghost predicate DropsOnPlane(a: Vec3, b: Vec3, c: Vec3, d: Vec3, s: real, t: real, h: Vec3) {
    && Sub(d, a) == Add(Add(Scale(Sub(b, a), s), Scale(Sub(c, a), t)), h)
    && Dot3(Sub(b, a), h) == 0.0 && Dot3(Sub(c, a), h) == 0.0
  }

  lemma TripleScalars(ux: real, uy: real, uz: real, vx: real, vy: real, vz: real, hx: real, hy: real, hz: real, s: real, t: real,
                      wx: real, wy: real, wz: real)
    requires wx == ux * s + vx * t + hx && wy == uy * s + vy * t + hy && wz == uz * s + vz * t + hz
    ensures ux * vy * wz - ux * vz * wy + uy * vz * wx - uy * vx * wz + uz * vx * wy - uz * vy * wx
         == hx * uy * vz - hx * uz * vy + hy * uz * vx - hy * ux * vz + hz * ux * vy - hz * uy * vx
  {
    var (p, q, r) := (uy * vz - uz * vy, uz * vx - ux * vz, ux * vy - uy * vx);
    assert ux * vy * wz - ux * vz * wy + uy * vz * wx - uy * vx * wz + uz * vx * wy - uz * vy * wx == p * wx + q * wy + r * wz;
    assert p * wx + q * wy + r * wz == s * (p * ux + q * uy + r * uz) + t * (p * vx + q * vy + r * vz) + (p * hx + q * hy + r * hz);
    assert p * ux + q * uy + r * uz == 0.0 && p * vx + q * vy + r * vz == 0.0;
  }

  lemma TripleShear(u: Vec3, v: Vec3, w: Vec3, h: Vec3, s: real, t: real)
    requires w == Add(Add(Scale(u, s), Scale(v, t)), h)
    ensures Dot3(u, Cross(v, w)) == Dot3(h, Cross(u, v))
  {
    TripleExpanded(u, v, w);
    TripleExpanded(h, u, v);
    hide Dot3, Cross;
    TripleScalars(u.x, u.y, u.z, v.x, v.y, v.z, h.x, h.y, h.z, s, t, w.x, w.y, w.z);
  }

  lemma NormalScalars(ux: real, uy: real, uz: real, vx: real, vy: real, vz: real, hx: real, hy: real, hz: real)
    requires ux * hx + uy * hy + uz * hz == 0.0 && vx * hx + vy * hy + vz * hz == 0.0
    ensures hy * (ux * vy - uy * vx) - hz * (uz * vx - ux * vz) == 0.0
  {
    assert hy * (ux * vy - uy * vx) - hz * (uz * vx - ux * vz)
        == ux * (vx * hx + vy * hy + vz * hz) - vx * (ux * hx + uy * hy + uz * hz);
  }

  /** A vector perpendicular to two others is parallel to their cross product. */
  lemma NormalParallel(u: Vec3, v: Vec3, h: Vec3)
    requires Dot3(u, h) == 0.0 && Dot3(v, h) == 0.0
    ensures Cross(h, Cross(u, v)) == Vec3(0.0, 0.0, 0.0)
  {
    NormalScalars(u.x, u.y, u.z, v.x, v.y, v.z, h.x, h.y, h.z);
    NormalScalars(u.y, u.z, u.x, v.y, v.z, v.x, h.y, h.z, h.x);
    NormalScalars(u.z, u.x, u.y, v.z, v.x, v.y, h.z, h.x, h.y);
  }

  lemma ProjectsWhole(sqrt: real -> real, h: Vec3, n: Vec3)
    requires IsSqrt(sqrt) && Cross(h, n) == Vec3(0.0, 0.0, 0.0)
    ensures Abs(Dot3(h, n)) == Length(sqrt, h) * Length(sqrt, n)
  {
    hide Dot3, Cross;
    Lagrange(h, n);
    DotIs(Cross(h, n), Cross(h, n), 0.0);
    NonNegativeSquares(h);
    NonNegativeSquares(n);
    var (d, x, y) := (Dot3(h, n), Dot3(h, h), Dot3(n, n));
    AbsSquare(d);
    ProductOfRoots(Abs(d), sqrt(x), sqrt(y), d * d, x, y);
  }

  lemma AbsSquare(d: real)
    ensures Abs(d) * Abs(d) == d * d
  {
  }

  /** The volume of a tetrahedron is a third of base times height. */
  lemma ThirdBaseTimesHeight(sqrt: real -> real, a: Vec3, b: Vec3, c: Vec3, d: Vec3, s: real, t: real, h: Vec3)
    requires IsSqrt(sqrt) && DropsOnPlane(a, b, c, d, s, t, h)
    ensures 3.0 * Measure(sqrt, [a, b, c, d]) == Measure(sqrt, [a, b, c]) * Length(sqrt, h)
  {
    var (u, v, w) := (Sub(b, a), Sub(c, a), Sub(d, a));
    hide Dot3, Cross, IsSqrt, Sub;
    TripleShear(u, v, w, h, s, t);
    NormalParallel(u, v, h);
    ProjectsWhole(sqrt, h, Cross(u, v));
    hide Length;
  }

  // ---------------------------------------------------------------- the parallel-axis law

  function Moved(vs: seq<Vec3>, d: Vec3): (r: seq<Vec3>)
    ensures |r| == |vs|
  {
    seq(|vs|, i requires 0 <= i < |vs| => Add(vs[i], d))
  }

  lemma MovedAxis(v: Vec3, d: Vec3, axis: nat)
    requires axis < 3
    ensures Add(v, d).Axis(axis) == v.Axis(axis) + d.Axis(axis)
  {
  }

  lemma MovedPrefix(vs: seq<Vec3>, d: Vec3)
    requires |vs| > 0
    ensures var n := |vs| - 1; Moved(vs, d)[..n] == Moved(vs[..n], d) && Moved(vs, d)[n] == Add(vs[n], d)
  {
  }

  lemma {:induction false} MovedSum(vs: seq<Vec3>, d: Vec3, axis: nat)
    requires axis < 3
    ensures Sum(Moved(vs, d), axis) == Sum(vs, axis) + Product(|vs| as real, d.Axis(axis))
    decreases |vs|
  {
    if |vs| > 0 {
      hide Product, Vec3.Axis, Moved;
      var n := |vs| - 1;
      MovedSum(vs[..n], d, axis);
      MovedPrefix(vs, d);
      MovedAxis(vs[n], d, axis);
      OneMore(n as real, d.Axis(axis));
    }
  }

  lemma OneMore(n: real, x: real)
    ensures Product(n + 1.0, x) == Product(n, x) + x
  {
  }

  lemma {:induction false} MovedDiagonal(vs: seq<Vec3>, d: Vec3, i: nat, j: nat)
    requires i < 3 && j < 3
    ensures Diagonal(Moved(vs, d), i, j)
         == Diagonal(vs, i, j) + Product(d.Axis(i), Sum(vs, j)) + Product(d.Axis(j), Sum(vs, i))
            + Product(|vs| as real, Product(d.Axis(i), d.Axis(j)))
    decreases |vs|
  {
    if |vs| > 0 {
      var n := |vs| - 1;
      DiagonalLast(vs, i, j);
      DiagonalLast(Moved(vs, d), i, j);
      hide Product, Vec3.Axis, Moved, Diagonal;
      MovedDiagonal(vs[..n], d, i, j);
      MovedPrefix(vs, d);
      MovedAxis(vs[n], d, i);
      MovedAxis(vs[n], d, j);
      OneMore(n as real, Product(d.Axis(i), d.Axis(j)));
      MovedProduct(vs[n].Axis(i), vs[n].Axis(j), d.Axis(i), d.Axis(j), Sum(vs[..n], i), Sum(vs[..n], j));
    } else {
      NoVertices(d.Axis(i), d.Axis(j));
    }
  }

  lemma NoVertices(p: real, q: real)
    ensures Product(p, 0.0) == 0.0 && Product(q, 0.0) == 0.0 && Product(0.0, Product(p, q)) == 0.0
  {
  }

  lemma DiagonalLast(vs: seq<Vec3>, i: nat, j: nat)
    requires i < 3 && j < 3 && |vs| > 0
    ensures var n := |vs| - 1; Diagonal(vs, i, j) == Diagonal(vs[..n], i, j) + Product(vs[n].Axis(i), vs[n].Axis(j))
  {
  }

  lemma MovedProduct(x: real, y: real, p: real, q: real, sx: real, sy: real)
    ensures Product(x + p, y + q) == Product(x, y) + Product(p, y) + Product(q, x) + Product(p, q)
    ensures Product(p, sy + y) == Product(p, sy) + Product(p, y) && Product(q, sx + x) == Product(q, sx) + Product(q, x)
  {
  }

  /** The moments of a simplex with n vertices, by its sums. */
  function FirstBy(m: real, n: real, sum: real): real
    requires n != 0.0
  {
    m * sum / n
  }

  function SecondBy(m: real, n: real, sx: real, sy: real, d: real): real
    requires n > 0.0
  {
    SameSigns(n, n + 1.0, n * (n + 1.0));
    m * (sx * sy + d) / (n * (n + 1.0))
  }

  lemma FirstShift(m: real, n: real, s: real, p: real)
    requires n != 0.0
    ensures FirstBy(m, n, s + Product(n, p)) == FirstBy(m, n, s) + Product(m, p)
  {
    assert m * (s + n * p) == m * s + n * (m * p);
    DividedSum(n, m * s, m * p);
  }

  lemma DividedSum(n: real, a: real, b: real)
    requires n != 0.0
    ensures (a + n * b) / n == a / n + b
  {
    DivideBack(n, a);
    DivideBack(n, a + n * b);
    assert n * (a / n + b) == a + n * b;
    CancelFactor(n, (a + n * b) / n, a / n + b);
  }

  lemma ShiftedQuadratic(n: real, sx: real, sy: real, d: real, p: real, q: real)
    ensures (sx + n * p) * (sy + n * q) + (d + p * sy + q * sx + n * (p * q)) == (sx * sy + d) + Surplus(n, sx, sy, p, q)
  {
    assert (sx + n * p) * (sy + n * q) == sx * sy + n * (p * sy) + n * (q * sx) + n * (n * (p * q));
  }

  /** What moving adds to the quadratic of a simplex. */
  function Surplus(n: real, sx: real, sy: real, p: real, q: real): real {
    (n + 1.0) * (p * sy + q * sx + n * (p * q))
  }

  function Ratio(m: real, x: real, k: real): real
    requires k != 0.0
  {
    m * x / k
  }

  lemma SecondIs(m: real, n: real, k: real, sx: real, sy: real, d: real, a: real)
    requires n > 0.0 && k == n * (n + 1.0) && k != 0.0 && a == sx * sy + d
    ensures SecondBy(m, n, sx, sy, d) == Ratio(m, a, k)
  {
  }

  lemma ShiftedIs(m: real, n: real, k: real, sx: real, sy: real, d: real, p: real, q: real, a: real)
    requires n > 0.0 && k == n * (n + 1.0) && k != 0.0 && a == sx * sy + d
    ensures SecondBy(m, n, sx + Product(n, p), sy + Product(n, q), d + Product(p, sy) + Product(q, sx) + Product(n, Product(p, q)))
         == Ratio(m, a + Surplus(n, sx, sy, p, q), k)
  {
    ShiftedQuadratic(n, sx, sy, d, p, q);
    hide Surplus, Ratio, SecondBy;
    SecondIs(m, n, k, sx + n * p, sy + n * q, d + p * sy + q * sx + n * (p * q), a + Surplus(n, sx, sy, p, q));
  }

  lemma SharePlus(m: real, k: real, a: real, r: real, e: real)
    requires k != 0.0 && Product(m, r) == Product(k, e)
    ensures Ratio(m, a + r, k) == Ratio(m, a, k) + e
  {
    assert m * (a + r) == m * a + k * e;
    DividedSum(k, m * a, e);
  }

  lemma FirstBack(m: real, n: real, s: real)
    requires n != 0.0
    ensures n * FirstBy(m, n, s) == m * s
  {
    DivideBack(n, m * s);
  }

  lemma ShiftShares(m: real, n: real, sx: real, sy: real, p: real, q: real, k: real)
    requires n > 0.0 && k == n * (n + 1.0)
    ensures Product(m, Surplus(n, sx, sy, p, q))
         == Product(k, Product(p, FirstBy(m, n, sy)) + Product(q, FirstBy(m, n, sx)) + Product(m, Product(p, q)))
  {
    FirstBack(m, n, sy);
    FirstBack(m, n, sx);
    hide FirstBy, Product, Surplus;
    ShareScalars(m, n, sx, sy, p, q, FirstBy(m, n, sx), FirstBy(m, n, sy), k);
  }

  lemma ShareScalars(m: real, n: real, sx: real, sy: real, p: real, q: real, x: real, y: real, k: real)
    requires n * y == m * sy && n * x == m * sx && k == n * (n + 1.0)
    ensures Product(m, Surplus(n, sx, sy, p, q)) == Product(k, Product(p, y) + Product(q, x) + Product(m, Product(p, q)))
  {
    assert m * (p * sy + q * sx + n * (p * q)) == p * (m * sy) + q * (m * sx) + n * (m * (p * q));
    assert n * (p * y + q * x + m * (p * q)) == p * (n * y) + q * (n * x) + n * (m * (p * q));
    Regrouped(m, n, p * sy + q * sx + n * (p * q), p * y + q * x + m * (p * q));
  }

  lemma Regrouped(m: real, n: real, a: real, b: real)
    requires m * a == n * b
    ensures m * ((n + 1.0) * a) == n * (n + 1.0) * b
  {
    assert m * ((n + 1.0) * a) == (n + 1.0) * (m * a);
    assert n * (n + 1.0) * b == (n + 1.0) * (n * b);
  }

  lemma SecondShift(m: real, n: real, sx: real, sy: real, d: real, p: real, q: real)
    requires n > 0.0
    ensures SecondBy(m, n, sx + Product(n, p), sy + Product(n, q), d + Product(p, sy) + Product(q, sx) + Product(n, Product(p, q)))
         == SecondBy(m, n, sx, sy, d) + Product(p, FirstBy(m, n, sy)) + Product(q, FirstBy(m, n, sx)) + Product(m, Product(p, q))
  {
    var (k, a) := (n * (n + 1.0), sx * sy + d);
    SameSigns(n, n + 1.0, k);
    hide SecondBy, FirstBy, Product, Surplus, Ratio;
    ShiftedIs(m, n, k, sx, sy, d, p, q, a);
    SecondIs(m, n, k, sx, sy, d, a);
    ShiftShares(m, n, sx, sy, p, q, k);
    SharePlus(m, k, a, Surplus(n, sx, sy, p, q), Product(p, FirstBy(m, n, sy)) + Product(q, FirstBy(m, n, sx)) + Product(m, Product(p, q)));
  }

  /** Moving a simplex by d: the parallel-axis law. */
  lemma MovedMoment(measure: real, vs: seq<Vec3>, d: Vec3)
    requires |vs| > 0
    ensures var (m, m') := (SimplexMoment(measure, vs), SimplexMoment(measure, Moved(vs, d)));
            && m'.measure == m.measure
            && (forall i :: 0 <= i < 3 ==> m'.first[i] == m.first[i] + Product(m.measure, d.Axis(i)))
            && (forall k :: 0 <= k < 9 ==>
                  m'.second[k] == m.second[k] + Product(d.Axis(k / 3), m.first[k % 3]) + Product(d.Axis(k % 3), m.first[k / 3])
                                  + Product(m.measure, Product(d.Axis(k / 3), d.Axis(k % 3))))
  {
    hide FirstEntry, SecondEntry, Moved, Vec3.Axis, Product;
    forall i | 0 <= i < 3
      ensures FirstEntry(measure, Moved(vs, d), i) == FirstEntry(measure, vs, i) + Product(measure, d.Axis(i))
    {
      MovedFirst(measure, vs, d, i);
    }
    forall k | 0 <= k < 9
      ensures SecondEntry(measure, Moved(vs, d), k / 3, k % 3)
           == SecondEntry(measure, vs, k / 3, k % 3) + Product(d.Axis(k / 3), FirstEntry(measure, vs, k % 3))
              + Product(d.Axis(k % 3), FirstEntry(measure, vs, k / 3)) + Product(measure, Product(d.Axis(k / 3), d.Axis(k % 3)))
    {
      MovedSecond(measure, vs, d, k / 3, k % 3);
    }
  }

  lemma EntriesBy(measure: real, vs: seq<Vec3>, i: nat, j: nat)
    requires |vs| > 0 && i < 3 && j < 3
    ensures FirstEntry(measure, vs, i) == FirstBy(measure, |vs| as real, Sum(vs, i))
    ensures SecondEntry(measure, vs, i, j) == SecondBy(measure, |vs| as real, Sum(vs, i), Sum(vs, j), Diagonal(vs, i, j))
  {
    hide Sum, Diagonal;
    Divisor(|vs|);
  }

  lemma MovedFirst(measure: real, vs: seq<Vec3>, d: Vec3, i: nat)
    requires |vs| > 0 && i < 3
    ensures FirstEntry(measure, Moved(vs, d), i) == FirstEntry(measure, vs, i) + Product(measure, d.Axis(i))
  {
    hide Sum, Moved, FirstEntry, SecondEntry, FirstBy, Product;
    EntriesBy(measure, vs, i, i);
    EntriesBy(measure, Moved(vs, d), i, i);
    MovedSum(vs, d, i);
    FirstShift(measure, |vs| as real, Sum(vs, i), d.Axis(i));
  }

  lemma MovedSecond(measure: real, vs: seq<Vec3>, d: Vec3, i: nat, j: nat)
    requires |vs| > 0 && i < 3 && j < 3
    ensures SecondEntry(measure, Moved(vs, d), i, j)
         == SecondEntry(measure, vs, i, j) + Product(d.Axis(i), FirstEntry(measure, vs, j)) + Product(d.Axis(j), FirstEntry(measure, vs, i))
            + Product(measure, Product(d.Axis(i), d.Axis(j)))
  {
    hide Sum, Moved, FirstEntry, SecondEntry, FirstBy, SecondBy, Product, Diagonal, Vec3.Axis;
    EntriesBy(measure, vs, i, j);
    EntriesBy(measure, vs, j, i);
    EntriesBy(measure, Moved(vs, d), i, j);
    MovedSum(vs, d, i);
    MovedSum(vs, d, j);
    MovedDiagonal(vs, d, i, j);
    SecondShift(measure, |vs| as real, Sum(vs, i), Sum(vs, j), Diagonal(vs, i, j), d.Axis(i), d.Axis(j));
  }

  lemma Divisor(n: nat)
    ensures (n * (n + 1)) as real == n as real * (n as real + 1.0)
  {
  }
}
