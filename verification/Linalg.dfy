/** Three-dimensional vectors and 3x3 matrices. */
module Linalg {
  import opened Results
  import opened RealVectors

  const ROUNDING: real := 0.000000001
  const NEGLIGIBLE: real := 0.000000000001

  datatype Vec3 = Vec3(x: real, y: real, z: real) {
    function Axis(axis: nat): real
      requires axis < 3
    {
      if axis == 0 then x else if axis == 1 then y else z
    }
  }

  function Add(a: Vec3, b: Vec3): Vec3 {
    Vec3(a.x + b.x, a.y + b.y, a.z + b.z)
  }

  function Sub(a: Vec3, b: Vec3): Vec3 {
    Vec3(a.x - b.x, a.y - b.y, a.z - b.z)
  }

  function Scale(a: Vec3, f: real): Vec3 {
    Vec3(a.x * f, a.y * f, a.z * f)
  }

  function Dot3(a: Vec3, b: Vec3): real {
    a.x * b.x + a.y * b.y + a.z * b.z
  }

  function Cross(a: Vec3, b: Vec3): Vec3 {
    Vec3(a.y * b.z - a.z * b.y, a.z * b.x - a.x * b.z, a.x * b.y - a.y * b.x)
  }

  /** The library square root: any function with this property. */
  ghost predicate IsSqrt(sqrt: real -> real) {
    forall x :: x >= 0.0 ==> sqrt(x) >= 0.0 && sqrt(x) * sqrt(x) == x
  }

  function Length(sqrt: real -> real, v: Vec3): real {
    sqrt(Dot3(v, v))
  }

  lemma RootUnique(a: real, b: real)
    requires a >= 0.0 && b >= 0.0 && a * a == b * b
    ensures a == b
  {
    if a + b != 0.0 {
      assert (a + b) * a == (a + b) * b;
      CancelFactor(a + b, a, b);
    }
  }

  // ---------------------------------------------------------------- matrices

  datatype Mat3 = Mat3(r0: Vec3, r1: Vec3, r2: Vec3)

  function Transpose(m: Mat3): Mat3 {
    Mat3(Vec3(m.r0.x, m.r1.x, m.r2.x), Vec3(m.r0.y, m.r1.y, m.r2.y), Vec3(m.r0.z, m.r1.z, m.r2.z))
  }

  function MulVec(m: Mat3, v: Vec3): Vec3 {
    Vec3(Dot3(m.r0, v), Dot3(m.r1, v), Dot3(m.r2, v))
  }

  function Determinant(m: Mat3): real {
    Dot3(m.r0, Cross(m.r1, m.r2))
  }

  function Max(a: real, b: real): real {
    if a < b then b else a
  }

  function MaxAbs3(v: Vec3): real {
    Max(Max(Abs(v.x), Abs(v.y)), Abs(v.z))
  }

  function MaxAbsEntry(m: Mat3): real {
    Max(Max(MaxAbs3(m.r0), MaxAbs3(m.r1)), MaxAbs3(m.r2))
  }

  predicate IsSingular(m: Mat3) {
    var scale := MaxAbsEntry(m);
    scale == 0.0 || Abs(Determinant(m)) <= NEGLIGIBLE * (scale * scale * scale)
  }

  lemma RegularDeterminant(m: Mat3)
    requires !IsSingular(m)
    ensures Determinant(m) != 0.0
  {
    var scale := MaxAbsEntry(m);
    assert scale * scale * scale >= 0.0;
  }

  function Inverse(m: Mat3): Option<Mat3> {
    if IsSingular(m) then None
    else
      RegularDeterminant(m);
      var adjugate := Transpose(Mat3(Cross(m.r1, m.r2), Cross(m.r2, m.r0), Cross(m.r0, m.r1)));
      Some(ScaleRows(adjugate, 1.0 / Determinant(m)))
  }

  function ScaleRows(m: Mat3, f: real): Mat3 {
    Mat3(Scale(m.r0, f), Scale(m.r1, f), Scale(m.r2, f))
  }

  lemma TransposeScaled(m: Mat3, f: real)
    ensures Transpose(ScaleRows(Transpose(m), f)) == ScaleRows(m, f)
  {
    hide Scale;
    var t := Transpose(m);
    ScaleComponents(m.r0, f);
    ScaleComponents(m.r1, f);
    ScaleComponents(m.r2, f);
    ScaleComponents(t.r0, f);
    ScaleComponents(t.r1, f);
    ScaleComponents(t.r2, f);
  }

  lemma ScaleComponents(v: Vec3, f: real)
    ensures Scale(v, f) == Vec3(v.x * f, v.y * f, v.z * f)
  {
  }

  /** The triple product written out. */
  lemma TripleExpanded(a: Vec3, b: Vec3, c: Vec3)
    ensures Dot3(a, Cross(b, c))
         == a.x * b.y * c.z - a.x * b.z * c.y + a.y * b.z * c.x - a.y * b.x * c.z + a.z * b.x * c.y - a.z * b.y * c.x
  {
    var d := Cross(b, c);
    assert a.x * d.x == a.x * (b.y * c.z - b.z * c.y);
    assert a.y * d.y == a.y * (b.z * c.x - b.x * c.z);
    assert a.z * d.z == a.z * (b.x * c.y - b.y * c.x);
  }

  lemma Reciprocal(d: real)
    requires d != 0.0
    ensures (1.0 / d) * d == 1.0
  {
  }

  lemma ColumnScalars(p: real, q: real, r: real, a0: real, b0: real, c0: real,
                      a1: real, b1: real, c1: real, a2: real, b2: real, c2: real)
    requires p == b1 * c2 - b2 * c1 && q == c1 * a2 - c2 * a1 && r == a1 * b2 - a2 * b1
    ensures p * a0 + q * b0 + r * c0
         == a0 * b1 * c2 - a0 * b2 * c1 + a1 * b2 * c0 - a1 * b0 * c2 + a2 * b0 * c1 - a2 * b1 * c0
  {
    assert p * a0 == a0 * (b1 * c2 - b2 * c1);
    assert q * b0 == b0 * (c1 * a2 - c2 * a1);
    assert r * c0 == c0 * (a1 * b2 - a2 * b1);
  }

  lemma ColumnVanishes(p: real, q: real, r: real, a1: real, b1: real, c1: real, a2: real, b2: real, c2: real)
    requires p == b1 * c2 - b2 * c1 && q == c1 * a2 - c2 * a1 && r == a1 * b2 - a2 * b1
    ensures p * a1 + q * b1 + r * c1 == 0.0
    ensures p * a2 + q * b2 + r * c2 == 0.0
  {
    ColumnScalars(p, q, r, a1, b1, c1, a1, b1, c1, a2, b2, c2);
    ColumnScalars(p, q, r, a2, b2, c2, a1, b1, c1, a2, b2, c2);
  }

  lemma CrossX(a: Vec3, b: Vec3)
    ensures Cross(a, b).x == a.y * b.z - a.z * b.y
  {
  }

  lemma AdjugateDiagonal(a: Vec3, b: Vec3, c: Vec3)
    ensures Cross(b, c).x * a.x + Cross(c, a).x * b.x + Cross(a, b).x * c.x == Dot3(a, Cross(b, c))
  {
    hide Dot3, Cross;
    TripleExpanded(a, b, c);
    CrossX(b, c);
    CrossX(c, a);
    CrossX(a, b);
    ColumnScalars(Cross(b, c).x, Cross(c, a).x, Cross(a, b).x, a.x, b.x, c.x, a.y, b.y, c.y, a.z, b.z, c.z);
  }

  /** The first row of the adjugate against the columns of the matrix. */
  lemma AdjugateColumn(a: Vec3, b: Vec3, c: Vec3)
    ensures Cross(b, c).x * a.x + Cross(c, a).x * b.x + Cross(a, b).x * c.x == Dot3(a, Cross(b, c))
    ensures Cross(b, c).x * a.y + Cross(c, a).x * b.y + Cross(a, b).x * c.y == 0.0
    ensures Cross(b, c).x * a.z + Cross(c, a).x * b.z + Cross(a, b).x * c.z == 0.0
  {
    hide Dot3, Cross;
    AdjugateDiagonal(a, b, c);
    CrossX(b, c);
    CrossX(c, a);
    CrossX(a, b);
    ColumnVanishes(Cross(b, c).x, Cross(c, a).x, Cross(a, b).x, a.y, b.y, c.y, a.z, b.z, c.z);
  }

  /** Cyclic relabelling of the axes. */
  function Turn(v: Vec3): Vec3 {
    Vec3(v.y, v.z, v.x)
  }

  lemma TurnCross(a: Vec3, b: Vec3, c: Vec3)
    ensures Cross(Turn(a), Turn(b)) == Turn(Cross(a, b))
    ensures Dot3(Turn(a), Cross(Turn(b), Turn(c))) == Dot3(a, Cross(b, c))
  {
    assert Cross(Turn(b), Turn(c)) == Turn(Cross(b, c));
  }

  lemma AdjugateColumnY(a: Vec3, b: Vec3, c: Vec3)
    ensures Cross(b, c).y * a.x + Cross(c, a).y * b.x + Cross(a, b).y * c.x == 0.0
    ensures Cross(b, c).y * a.y + Cross(c, a).y * b.y + Cross(a, b).y * c.y == Dot3(a, Cross(b, c))
    ensures Cross(b, c).y * a.z + Cross(c, a).y * b.z + Cross(a, b).y * c.z == 0.0
  {
    hide Cross, Dot3;
    var a', b', c' := Turn(a), Turn(b), Turn(c);
    TurnCross(a, b, c);
    TurnCross(b, c, a);
    TurnCross(c, a, b);
    AdjugateColumn(a', b', c');
  }

  lemma AdjugateColumnZ(a: Vec3, b: Vec3, c: Vec3)
    ensures Cross(b, c).z * a.x + Cross(c, a).z * b.x + Cross(a, b).z * c.x == 0.0
    ensures Cross(b, c).z * a.y + Cross(c, a).z * b.y + Cross(a, b).z * c.y == 0.0
    ensures Cross(b, c).z * a.z + Cross(c, a).z * b.z + Cross(a, b).z * c.z == Dot3(a, Cross(b, c))
  {
    hide Cross, Dot3;
    var a', b', c' := Turn(a), Turn(b), Turn(c);
    TurnCross(a, b, c);
    TurnCross(b, c, a);
    TurnCross(c, a, b);
    AdjugateColumnY(a', b', c');
  }
}
