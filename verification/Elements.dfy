/** The two element kinds: geometry, local stiffness, strain and energy. */
module Elements {
  import opened Results
  import opened RealVectors
  import opened Linalg
  import opened LinearForms

  // ---------------------------------------------------------------- short sums

  lemma Dot6(a: Vector, b: Vector)
    requires |a| == 6 && |b| == 6
    ensures Dot(a, b) == a[0] * b[0] + a[1] * b[1] + a[2] * b[2] + a[3] * b[3] + a[4] * b[4] + a[5] * b[5]
  {
    DotRangeSplit(a, b, 0, 3, 6);
    assert DotRange(a, b, 0, 3) == a[0] * b[0] + a[1] * b[1] + a[2] * b[2] by {
      assert DotRange(a, b, 0, 1) == a[0] * b[0];
    }
    assert DotRange(a, b, 3, 6) == a[3] * b[3] + a[4] * b[4] + a[5] * b[5] by {
      assert DotRange(a, b, 3, 4) == a[3] * b[3];
    }
  }

  lemma Dot12(a: Vector, b: Vector)
    requires |a| == 12 && |b| == 12
    ensures Dot(a, b) == a[0] * b[0] + a[1] * b[1] + a[2] * b[2] + a[3] * b[3] + a[4] * b[4] + a[5] * b[5]
                       + a[6] * b[6] + a[7] * b[7] + a[8] * b[8] + a[9] * b[9] + a[10] * b[10] + a[11] * b[11]
  {
    DotRangeSplit(a, b, 0, 6, 12);
    var a1, b1, a2, b2 := a[..6], b[..6], a[6..], b[6..];
    DotRangeSame(a, a1, b, b1, 0, 6);
    Dot6(a1, b1);
    DotRangeShift(a, b, a2, b2, 6, 6);
    Dot6(a2, b2);
  }

  lemma {:induction false} DotRangeShift(a: Vector, b: Vector, a': Vector, b': Vector, lo: nat, count: nat)
    requires lo + count <= |a| == |b| && count <= |a'| && count <= |b'|
    requires forall k :: 0 <= k < count ==> a'[k] == a[lo + k] && b'[k] == b[lo + k]
    ensures DotRange(a, b, lo, lo + count) == DotRange(a', b', 0, count)
    decreases count
  {
    if count > 0 {
      DotRangeShift(a, b, a', b', lo, count - 1);
    }
  }

  // ---------------------------------------------------------------- truss

  datatype TrussShape = TrussShape(length: real, direction: Vec3)

  function TrussGeometry(sqrt: real -> real, p0: Vec3, p1: Vec3): Option<TrussShape> {
    var delta := Sub(p1, p0);
    var length := Length(sqrt, delta);
    if length > ROUNDING then Some(TrussShape(length, Scale(delta, 1.0 / length))) else None
  }

  function TrussSign(local: nat): real {
    if local < 3 then -1.0 else 1.0
  }

  /** The signed direction cosines of the six local degrees of freedom. */
  function TrussCosines(shape: TrussShape): (c: Vector)
    ensures |c| == 6
  {
    var d := shape.direction;
    [-d.x, -d.y, -d.z, d.x, d.y, d.z]
  }

  function TrussEntry(shape: TrussShape, factor: real, i: nat, j: nat): real
    requires i < 6 && j < 6
  {
    factor * TrussSign(i) * TrussSign(j) * shape.direction.Axis(i % 3) * shape.direction.Axis(j % 3)
  }

  function TrussMatrix(shape: TrussShape, factor: real): (m: Matrix)
    ensures IsMatrix(m, 6, 6)
  {
    seq(6, i requires 0 <= i < 6 => seq(6, j requires 0 <= j < 6 => TrussEntry(shape, factor, i, j)))
  }

  lemma TrussCosine(shape: TrussShape, i: nat)
    requires i < 6
    ensures TrussCosines(shape)[i] == TrussSign(i) * shape.direction.Axis(i % 3)
  {
  }

  lemma TrussEntryIs(shape: TrussShape, factor: real, i: nat, j: nat)
    requires i < 6 && j < 6
    ensures TrussEntry(shape, factor, i, j) == factor * TrussCosines(shape)[i] * TrussCosines(shape)[j]
  {
    TrussCosine(shape, i);
    TrussCosine(shape, j);
    hide TrussCosines, TrussSign, Vec3.Axis;
    RegroupProduct(factor, TrussSign(i), TrussSign(j), shape.direction.Axis(i % 3), shape.direction.Axis(j % 3),
                   TrussCosines(shape)[i], TrussCosines(shape)[j]);
  }

  lemma RegroupProduct(f: real, s: real, t: real, x: real, y: real, p: real, q: real)
    requires p == s * x && q == t * y
    ensures f * s * t * x * y == f * p * q
  {
    assert f * s * t * x * y == f * (s * x) * (t * y);
  }

  lemma TrussIsRankOne(shape: TrussShape, factor: real)
    ensures RankOne(TrussMatrix(shape, factor), factor, TrussCosines(shape))
  {
    hide TrussEntry, TrussCosines;
    var m, c := TrussMatrix(shape, factor), TrussCosines(shape);
    forall i, j | 0 <= i < |c| && 0 <= j < |c|
      ensures m[i][j] == factor * c[i] * c[j]
    {
      assert m[i][j] == TrussEntry(shape, factor, i, j);
      TrussEntryIs(shape, factor, i, j);
    }
  }

  /** Axial stiffness. */
  function AxialFactor(young: real, area: real, length: real): real
    requires length != 0.0
  {
    young * area / length
  }

  /** Axial strain from the six local displacements. */
  function TrussStrain(shape: TrussShape, w: Vector): real
    requires |w| == 6 && shape.length != 0.0
  {
    Dot3(Vec3(w[3] - w[0], w[4] - w[1], w[5] - w[2]), shape.direction) / shape.length
  }

  function TrussEnergy(shape: TrussShape, young: real, area: real, w: Vector): real
    requires |w| == 6 && shape.length != 0.0
  {
    var strain := TrussStrain(shape, w);
    var stress := young * strain;
    0.5 * stress * strain * area * shape.length
  }

  lemma TrussElongation(shape: TrussShape, w: Vector)
    requires |w| == 6 && shape.length != 0.0
    ensures Dot(TrussCosines(shape), w) == TrussStrain(shape, w) * shape.length
  {
    var d := shape.direction;
    Dot6(TrussCosines(shape), w);
    assert Dot3(Vec3(w[3] - w[0], w[4] - w[1], w[5] - w[2]), d)
        == (w[3] - w[0]) * d.x + (w[4] - w[1]) * d.y + (w[5] - w[2]) * d.z;
  }

  /** The reported truss energy is half the quadratic form of its stiffness. */
  lemma TrussEnergyIsForm(shape: TrussShape, young: real, area: real, w: Vector)
    requires |w| == 6 && shape.length != 0.0
    ensures TrussEnergy(shape, young, area, w) == 0.5 * Form(TrussMatrix(shape, AxialFactor(young, area, shape.length)), w, w)
  {
    var l, e := shape.length, TrussStrain(shape, w);
    var factor := AxialFactor(young, area, l);
    TrussIsRankOne(shape, factor);
    RankOneForm(TrussMatrix(shape, factor), factor, TrussCosines(shape), w, w);
    TrussElongation(shape, w);
    TrussEnergyScalars(young, area, l, e);
  }

  lemma TrussEnergyScalars(young: real, area: real, l: real, e: real)
    requires l != 0.0
    ensures 0.5 * (young * e) * e * area * l == 0.5 * (young * area / l * (e * l) * (e * l))
  {
    var factor := young * area / l;
    assert factor * l == young * area;
    assert factor * (e * l) * (e * l) == (factor * l) * (e * e * l);
    assert (young * area) * (e * e * l) == (young * e) * e * area * l;
  }

  lemma TrussEnergyNonNegative(shape: TrussShape, young: real, area: real, w: Vector)
    requires |w| == 6 && shape.length > 0.0 && young >= 0.0 && area >= 0.0
    ensures TrussEnergy(shape, young, area, w) >= 0.0
  {
    var e := TrussStrain(shape, w);
    assert e * e >= 0.0;
    ProductNonNegative(young, e * e);
    ProductNonNegative(young * (e * e), area);
    ProductNonNegative(young * (e * e) * area, shape.length);
    assert 0.5 * (young * e) * e * area * shape.length == 0.5 * (young * (e * e) * area * shape.length);
  }

  // ---------------------------------------------------------------- tetrahedron geometry

  /** Volume and the constant gradients of the four shape functions. */
  datatype TetShape = TetShape(volume: real, g0: Vec3, g1: Vec3, g2: Vec3, g3: Vec3) {
    function Gradient(node: nat): Vec3
      requires node < 4
    {
      if node == 0 then g0 else if node == 1 then g1 else if node == 2 then g2 else g3
    }
  }

  function Jacobian(p0: Vec3, p1: Vec3, p2: Vec3, p3: Vec3): Mat3 {
    Mat3(Sub(p1, p0), Sub(p2, p0), Sub(p3, p0))
  }

  function TetGeometry(p0: Vec3, p1: Vec3, p2: Vec3, p3: Vec3): Option<TetShape> {
    var jacobian := Jacobian(p0, p1, p2, p3);
    match Inverse(jacobian)
    case None => None
    case Some(inverse) =>
      Some(TetShape(
             Abs(Determinant(jacobian)) / 6.0,
             MulVec(inverse, Vec3(-1.0, -1.0, -1.0)),
             MulVec(inverse, Vec3(1.0, 0.0, 0.0)),
             MulVec(inverse, Vec3(0.0, 1.0, 0.0)),
             MulVec(inverse, Vec3(0.0, 0.0, 1.0))))
  }

  lemma GradientsSumToZero(p0: Vec3, p1: Vec3, p2: Vec3, p3: Vec3)
    requires TetGeometry(p0, p1, p2, p3).Some?
    ensures var s := TetGeometry(p0, p1, p2, p3).value;
            s.g0 == Vec3(-(s.g1.x + s.g2.x + s.g3.x), -(s.g1.y + s.g2.y + s.g3.y), -(s.g1.z + s.g2.z + s.g3.z))
  {
  }

  lemma UnitColumns(m: Mat3)
    ensures MulVec(m, Vec3(1.0, 0.0, 0.0)) == Transpose(m).r0
    ensures MulVec(m, Vec3(0.0, 1.0, 0.0)) == Transpose(m).r1
    ensures MulVec(m, Vec3(0.0, 0.0, 1.0)) == Transpose(m).r2
  {
  }

  /** The gradients are the scaled cross products of the Jacobian's rows. */
  lemma GradientsAreCrossProducts(p0: Vec3, p1: Vec3, p2: Vec3, p3: Vec3)
    requires TetGeometry(p0, p1, p2, p3).Some?
    ensures var (s, j) := (TetGeometry(p0, p1, p2, p3).value, Jacobian(p0, p1, p2, p3));
            && Determinant(j) != 0.0
            && s.g1 == Scale(Cross(j.r1, j.r2), 1.0 / Determinant(j))
            && s.g2 == Scale(Cross(j.r2, j.r0), 1.0 / Determinant(j))
            && s.g3 == Scale(Cross(j.r0, j.r1), 1.0 / Determinant(j))
  {
    var j := Jacobian(p0, p1, p2, p3);
    RegularDeterminant(j);
    UnitColumns(Inverse(j).value);
    TransposeScaled(Mat3(Cross(j.r1, j.r2), Cross(j.r2, j.r0), Cross(j.r0, j.r1)), 1.0 / Determinant(j));
  }

  lemma SpreadCombine(al: Vec3, p: real, q: real, r: real, a: Vec3, b: Vec3, c: Vec3, x: real, y: real, z: real)
    requires p * a.x + q * b.x + r * c.x == x
    requires p * a.y + q * b.y + r * c.y == y
    requires p * a.z + q * b.z + r * c.z == z
    ensures p * Dot3(al, a) + q * Dot3(al, b) + r * Dot3(al, c) == al.x * x + al.y * y + al.z * z
  {
    assert al.x * (p * a.x + q * b.x + r * c.x) == al.x * x;
    assert al.y * (p * a.y + q * b.y + r * c.y) == al.y * y;
    assert al.z * (p * a.z + q * b.z + r * c.z) == al.z * z;
    assert p * Dot3(al, a) == p * (al.x * a.x + al.y * a.y + al.z * a.z);
    assert q * Dot3(al, b) == q * (al.x * b.x + al.y * b.y + al.z * b.z);
    assert r * Dot3(al, c) == r * (al.x * c.x + al.y * c.y + al.z * c.z);
  }

  /** A scalar nodal field s_k, interpolated by the shape functions. */
  function InterpolatedGradient(shape: TetShape, s0: real, s1: real, s2: real, s3: real): Vec3 {
    Vec3(shape.g0.x * s0 + shape.g1.x * s1 + shape.g2.x * s2 + shape.g3.x * s3,
         shape.g0.y * s0 + shape.g1.y * s1 + shape.g2.y * s2 + shape.g3.y * s3,
         shape.g0.z * s0 + shape.g1.z * s1 + shape.g2.z * s2 + shape.g3.z * s3)
  }

  lemma ComponentOfAffine(p: real, q: real, r: real, d: real, s0: real, s1: real, s2: real, s3: real,
                          e1: real, e2: real, e3: real, target: real)
    requires e1 == s1 - s0 && e2 == s2 - s0 && e3 == s3 - s0
    requires d != 0.0 && p * e1 + q * e2 + r * e3 == target * d
    ensures var f := 1.0 / d;
            -(p * f + q * f + r * f) * s0 + p * f * s1 + q * f * s2 + r * f * s3 == target
  {
    var f := 1.0 / d;
    assert -(p * f + q * f + r * f) * s0 + p * f * s1 + q * f * s2 + r * f * s3 == f * (p * e1 + q * e2 + r * e3);
    assert f * (target * d) == target * (f * d);
    Reciprocal(d);
  }

  function AffineField(al: Vec3, t: real, p: Vec3): real {
    Dot3(al, p) + t
  }

  lemma AffineDifference(al: Vec3, t: real, p: Vec3, q: Vec3)
    ensures AffineField(al, t, q) - AffineField(al, t, p) == Dot3(al, Sub(q, p))
  {
  }

  /** Interpolating an affine field recovers its gradient exactly, on every
      tetrahedron the kernel accepts. */
  lemma AffineGradientRecovered(p0: Vec3, p1: Vec3, p2: Vec3, p3: Vec3, al: Vec3, t: real)
    requires TetGeometry(p0, p1, p2, p3).Some?
    ensures InterpolatedGradient(TetGeometry(p0, p1, p2, p3).value,
                                 AffineField(al, t, p0), AffineField(al, t, p1),
                                 AffineField(al, t, p2), AffineField(al, t, p3)) == al
  {
    hide TetGeometry, Inverse, Determinant, Cross, Dot3, AffineField, InterpolatedGradient, Scale;
    var s, j := TetGeometry(p0, p1, p2, p3).value, Jacobian(p0, p1, p2, p3);
    var s0, s1, s2, s3 := AffineField(al, t, p0), AffineField(al, t, p1), AffineField(al, t, p2), AffineField(al, t, p3);
    GradientsSumToZero(p0, p1, p2, p3);
    GradientsAreCrossProducts(p0, p1, p2, p3);
    AffineDifference(al, t, p0, p1);
    AffineDifference(al, t, p0, p2);
    AffineDifference(al, t, p0, p3);
    RecoveredGradient(s, j, 1.0 / Determinant(j), al, s0, s1, s2, s3);
  }

  lemma ScaleShares(v: Vec3, f: real)
    ensures Scale(v, f) == Vec3(Share(v.x, f), Share(v.y, f), Share(v.z, f))
  {
  }

  ghost predicate Inverts(f: real, j: Mat3) {
    Determinant(j) != 0.0 && f == 1.0 / Determinant(j)
  }

  lemma RecoveredGradient(s: TetShape, j: Mat3, f: real, al: Vec3, s0: real, s1: real, s2: real, s3: real)
    requires Inverts(f, j) && Projects(al, s0, s1, s2, s3, j)
    requires s.g1 == Scale(Cross(j.r1, j.r2), f) && s.g2 == Scale(Cross(j.r2, j.r0), f) && s.g3 == Scale(Cross(j.r0, j.r1), f)
    requires s.g0 == Vec3(-(s.g1.x + s.g2.x + s.g3.x), -(s.g1.y + s.g2.y + s.g3.y), -(s.g1.z + s.g2.z + s.g3.z))
    ensures InterpolatedGradient(s, s0, s1, s2, s3) == al
  {
    hide Inverts, Cross, Recovered, Projects, Share, Scale, InterpolatedGradient;
    AffineX(al, s0, s1, s2, s3, j, f);
    AffineY(al, s0, s1, s2, s3, j, f);
    AffineZ(al, s0, s1, s2, s3, j, f);
    var (u, v, w) := (Cross(j.r1, j.r2), Cross(j.r2, j.r0), Cross(j.r0, j.r1));
    ScaleShares(u, f);
    ScaleShares(v, f);
    ScaleShares(w, f);
    GradientShares(s, s0, s1, s2, s3);
    ComponentRecovered(s.g0.x, s.g1.x, s.g2.x, s.g3.x, u.x, v.x, w.x, f, s0, s1, s2, s3);
    ComponentRecovered(s.g0.y, s.g1.y, s.g2.y, s.g3.y, u.y, v.y, w.y, f, s0, s1, s2, s3);
    ComponentRecovered(s.g0.z, s.g1.z, s.g2.z, s.g3.z, u.z, v.z, w.z, f, s0, s1, s2, s3);
  }

  /** One component of an interpolated gradient, by scaled cross products. */
  function Recovered(p: real, q: real, r: real, f: real, s0: real, s1: real, s2: real, s3: real): real {
    -(p * f + q * f + r * f) * s0 + p * f * s1 + q * f * s2 + r * f * s3
  }

  lemma ComponentRecovered(g0: real, g1: real, g2: real, g3: real, p: real, q: real, r: real, f: real, s0: real, s1: real, s2: real, s3: real)
    requires g1 == Share(p, f) && g2 == Share(q, f) && g3 == Share(r, f) && g0 == -(g1 + g2 + g3)
    ensures Share(g0, s0) + Share(g1, s1) + Share(g2, s2) + Share(g3, s3) == Recovered(p, q, r, f, s0, s1, s2, s3)
  {
  }

  /** s1, s2, s3 differ from s0 by the projections of `al` on the rows of `j`. */
  ghost predicate Projects(al: Vec3, s0: real, s1: real, s2: real, s3: real, j: Mat3) {
    s1 - s0 == Dot3(al, j.r0) && s2 - s0 == Dot3(al, j.r1) && s3 - s0 == Dot3(al, j.r2)
  }

  lemma AffineX(al: Vec3, s0: real, s1: real, s2: real, s3: real, j: Mat3, f: real)
    requires Inverts(f, j) && Projects(al, s0, s1, s2, s3, j)
    ensures Recovered(Cross(j.r1, j.r2).x, Cross(j.r2, j.r0).x, Cross(j.r0, j.r1).x, f, s0, s1, s2, s3) == al.x
  {
    hide Cross, Dot3;
    var p, q, r, d := Cross(j.r1, j.r2).x, Cross(j.r2, j.r0).x, Cross(j.r0, j.r1).x, Determinant(j);
    AdjugateColumn(j.r0, j.r1, j.r2);
    SpreadCombine(al, p, q, r, j.r0, j.r1, j.r2, d, 0.0, 0.0);
    ComponentOfAffine(p, q, r, d, s0, s1, s2, s3, Dot3(al, j.r0), Dot3(al, j.r1), Dot3(al, j.r2), al.x);
  }

  lemma AffineY(al: Vec3, s0: real, s1: real, s2: real, s3: real, j: Mat3, f: real)
    requires Inverts(f, j) && Projects(al, s0, s1, s2, s3, j)
    ensures Recovered(Cross(j.r1, j.r2).y, Cross(j.r2, j.r0).y, Cross(j.r0, j.r1).y, f, s0, s1, s2, s3) == al.y
  {
    hide Cross, Dot3;
    var p, q, r, d := Cross(j.r1, j.r2).y, Cross(j.r2, j.r0).y, Cross(j.r0, j.r1).y, Determinant(j);
    AdjugateColumnY(j.r0, j.r1, j.r2);
    SpreadCombine(al, p, q, r, j.r0, j.r1, j.r2, 0.0, d, 0.0);
    ComponentOfAffine(p, q, r, d, s0, s1, s2, s3, Dot3(al, j.r0), Dot3(al, j.r1), Dot3(al, j.r2), al.y);
  }

  lemma AffineZ(al: Vec3, s0: real, s1: real, s2: real, s3: real, j: Mat3, f: real)
    requires Inverts(f, j) && Projects(al, s0, s1, s2, s3, j)
    ensures Recovered(Cross(j.r1, j.r2).z, Cross(j.r2, j.r0).z, Cross(j.r0, j.r1).z, f, s0, s1, s2, s3) == al.z
  {
    hide Cross, Dot3;
    var p, q, r, d := Cross(j.r1, j.r2).z, Cross(j.r2, j.r0).z, Cross(j.r0, j.r1).z, Determinant(j);
    AdjugateColumnZ(j.r0, j.r1, j.r2);
    SpreadCombine(al, p, q, r, j.r0, j.r1, j.r2, 0.0, 0.0, d);
    ComponentOfAffine(p, q, r, d, s0, s1, s2, s3, Dot3(al, j.r0), Dot3(al, j.r1), Dot3(al, j.r2), al.z);
  }

  // ---------------------------------------------------------------- strain

  /** Entry of the strain-displacement matrix for one node's gradient. */
  function StrainEntry(g: Vec3, row: nat, axis: nat): real {
    if row == 0 then (if axis == 0 then g.x else 0.0)
    else if row == 1 then (if axis == 1 then g.y else 0.0)
    else if row == 2 then (if axis == 2 then g.z else 0.0)
    else if row == 3 then (if axis == 0 then g.y else if axis == 1 then g.x else 0.0)
    else if row == 4 then (if axis == 1 then g.z else if axis == 2 then g.y else 0.0)
    else (if axis == 0 then g.z else if axis == 2 then g.x else 0.0)
  }

  function StrainDisplacement(shape: TetShape): (b: Matrix)
    ensures IsMatrix(b, 6, 12)
  {
    seq(6, row requires 0 <= row < 6 => seq(12, c requires 0 <= c < 12 => StrainEntry(shape.Gradient(c / 3), row, c % 3)))
  }

  /** Sets the nine non-zero entries of each node in a zero matrix. */
  method BuildStrainDisplacement(shape: TetShape) returns (b: Matrix)
    ensures b == StrainDisplacement(shape)
  {
    b := seq(6, _ => seq(12, _ => 0.0));
    for node := 0 to 4
      invariant IsMatrix(b, 6, 12)
      invariant forall r, c :: 0 <= r < 6 && 0 <= c < 3 * node ==> b[r][c] == StrainEntry(shape.Gradient(c / 3), r, c % 3)
      invariant forall r, c :: 0 <= r < 6 && 3 * node <= c < 12 ==> b[r][c] == 0.0
    {
      var g, column := shape.Gradient(node), node * 3;
      b := b[0 := b[0][column := g.x]];
      b := b[1 := b[1][column + 1 := g.y]];
      b := b[2 := b[2][column + 2 := g.z]];
      b := b[3 := b[3][column := g.y][column + 1 := g.x]];
      b := b[4 := b[4][column + 1 := g.z][column + 2 := g.y]];
      b := b[5 := b[5][column := g.z][column + 2 := g.x]];
    }
    assert forall r :: 0 <= r < 6 ==> b[r] == StrainDisplacement(shape)[r];
  }

  /** The displacement gradient: row i is the gradient of component i. */
  function DisplacementGradient(shape: TetShape, w: Vector): Mat3
    requires |w| == 12
  {
    Mat3(InterpolatedGradient(shape, w[0], w[3], w[6], w[9]),
         InterpolatedGradient(shape, w[1], w[4], w[7], w[10]),
         InterpolatedGradient(shape, w[2], w[5], w[8], w[11]))
  }

  /** Engineering strain of a displacement gradient. */
  function StrainOf(h: Mat3): (e: Vector)
    ensures |e| == 6
  {
    [h.r0.x, h.r1.y, h.r2.z, h.r0.y + h.r1.x, h.r1.z + h.r2.y, h.r0.z + h.r2.x]
  }

  /** One node's share of a strain component. */
  function StrainShare(g: Vec3, row: nat, x: real, y: real, z: real): real {
    StrainEntry(g, row, 0) * x + StrainEntry(g, row, 1) * y + StrainEntry(g, row, 2) * z
  }

  lemma StrainRowShares(shape: TetShape, w: Vector, row: nat)
    requires |w| == 12 && row < 6
    ensures Dot(StrainDisplacement(shape)[row], w) == StrainShares(shape, w, row)
  {
    var b := StrainDisplacement(shape)[row];
    Dot12(b, w);
    assert b[0] == StrainEntry(shape.g0, row, 0) && b[1] == StrainEntry(shape.g0, row, 1) && b[2] == StrainEntry(shape.g0, row, 2);
    assert b[3] == StrainEntry(shape.g1, row, 0) && b[4] == StrainEntry(shape.g1, row, 1) && b[5] == StrainEntry(shape.g1, row, 2);
    assert b[6] == StrainEntry(shape.g2, row, 0) && b[7] == StrainEntry(shape.g2, row, 1) && b[8] == StrainEntry(shape.g2, row, 2);
    assert b[9] == StrainEntry(shape.g3, row, 0) && b[10] == StrainEntry(shape.g3, row, 1) && b[11] == StrainEntry(shape.g3, row, 2);
  }

  /** The shares of the four nodes in one strain component. */
  function StrainShares(shape: TetShape, w: Vector, row: nat): real
    requires |w| == 12
  {
    StrainShare(shape.g0, row, w[0], w[1], w[2]) + StrainShare(shape.g1, row, w[3], w[4], w[5])
    + StrainShare(shape.g2, row, w[6], w[7], w[8]) + StrainShare(shape.g3, row, w[9], w[10], w[11])
  }

  /** One product of a gradient's component and a nodal value. */
  function Share(g: real, s: real): real {
    g * s
  }

  lemma NormalShares(g: Vec3, x: real, y: real, z: real)
    ensures StrainShare(g, 0, x, y, z) == Share(g.x, x)
    ensures StrainShare(g, 1, x, y, z) == Share(g.y, y)
    ensures StrainShare(g, 2, x, y, z) == Share(g.z, z)
  {
  }

  lemma ShearShares(g: Vec3, x: real, y: real, z: real)
    ensures StrainShare(g, 3, x, y, z) == Share(g.y, x) + Share(g.x, y)
    ensures StrainShare(g, 4, x, y, z) == Share(g.z, y) + Share(g.y, z)
    ensures StrainShare(g, 5, x, y, z) == Share(g.z, x) + Share(g.x, z)
  {
  }

  lemma GradientShares(shape: TetShape, a: real, b: real, c: real, d: real)
    ensures var g := InterpolatedGradient(shape, a, b, c, d);
            && g.x == Share(shape.g0.x, a) + Share(shape.g1.x, b) + Share(shape.g2.x, c) + Share(shape.g3.x, d)
            && g.y == Share(shape.g0.y, a) + Share(shape.g1.y, b) + Share(shape.g2.y, c) + Share(shape.g3.y, d)
            && g.z == Share(shape.g0.z, a) + Share(shape.g1.z, b) + Share(shape.g2.z, c) + Share(shape.g3.z, d)
  {
  }

  lemma NormalStrains(shape: TetShape, w: Vector)
    requires |w| == 12
    ensures var h := DisplacementGradient(shape, w);
            StrainShares(shape, w, 0) == h.r0.x && StrainShares(shape, w, 1) == h.r1.y && StrainShares(shape, w, 2) == h.r2.z
  {
    hide StrainShare, Share, InterpolatedGradient;
    NormalShares(shape.g0, w[0], w[1], w[2]);
    NormalShares(shape.g1, w[3], w[4], w[5]);
    NormalShares(shape.g2, w[6], w[7], w[8]);
    NormalShares(shape.g3, w[9], w[10], w[11]);
    GradientShares(shape, w[0], w[3], w[6], w[9]);
    GradientShares(shape, w[1], w[4], w[7], w[10]);
    GradientShares(shape, w[2], w[5], w[8], w[11]);
  }

  lemma ShearStrains(shape: TetShape, w: Vector)
    requires |w| == 12
    ensures var h := DisplacementGradient(shape, w);
            && StrainShares(shape, w, 3) == h.r0.y + h.r1.x
            && StrainShares(shape, w, 4) == h.r1.z + h.r2.y
            && StrainShares(shape, w, 5) == h.r0.z + h.r2.x
  {
    hide StrainShare, Share, InterpolatedGradient;
    ShearShares(shape.g0, w[0], w[1], w[2]);
    ShearShares(shape.g1, w[3], w[4], w[5]);
    ShearShares(shape.g2, w[6], w[7], w[8]);
    ShearShares(shape.g3, w[9], w[10], w[11]);
    GradientShares(shape, w[0], w[3], w[6], w[9]);
    GradientShares(shape, w[1], w[4], w[7], w[10]);
    GradientShares(shape, w[2], w[5], w[8], w[11]);
  }

  lemma StrainRow(shape: TetShape, w: Vector, row: nat)
    requires |w| == 12 && row < 6
    ensures StrainShares(shape, w, row) == StrainOf(DisplacementGradient(shape, w))[row]
  {
    hide StrainShares, DisplacementGradient;
    NormalStrains(shape, w);
    ShearStrains(shape, w);
  }

  /** The strain-displacement matrix computes the symmetric gradient. */
  lemma StrainIsSymmetricGradient(shape: TetShape, w: Vector)
    requires |w| == 12
    ensures Apply(StrainDisplacement(shape), w) == StrainOf(DisplacementGradient(shape, w))
  {
    forall row | 0 <= row < 6
      ensures Apply(StrainDisplacement(shape), w)[row] == StrainOf(DisplacementGradient(shape, w))[row]
    {
      hide StrainShares, DisplacementGradient, StrainDisplacement, Dot;
      StrainRowShares(shape, w, row);
      StrainRow(shape, w, row);
    }
  }

  /** Nodal values of the displacement field p -> h p + t. */
  function AffineDisplacement(h: Mat3, t: Vec3, p: Vec3): Vec3 {
    Vec3(AffineField(h.r0, t.x, p), AffineField(h.r1, t.y, p), AffineField(h.r2, t.z, p))
  }

  function TetDisplacement(d0: Vec3, d1: Vec3, d2: Vec3, d3: Vec3): (w: Vector)
    ensures |w| == 12
  {
    [d0.x, d0.y, d0.z, d1.x, d1.y, d1.z, d2.x, d2.y, d2.z, d3.x, d3.y, d3.z]
  }

  /** The patch property: an affine displacement field has its exact constant
      strain in every accepted tetrahedron. */
  lemma PatchStrain(p0: Vec3, p1: Vec3, p2: Vec3, p3: Vec3, h: Mat3, t: Vec3)
    requires TetGeometry(p0, p1, p2, p3).Some?
    ensures Apply(StrainDisplacement(TetGeometry(p0, p1, p2, p3).value),
                  TetDisplacement(AffineDisplacement(h, t, p0), AffineDisplacement(h, t, p1),
                                  AffineDisplacement(h, t, p2), AffineDisplacement(h, t, p3))) == StrainOf(h)
  {
    var s := TetGeometry(p0, p1, p2, p3).value;
    var w := TetDisplacement(AffineDisplacement(h, t, p0), AffineDisplacement(h, t, p1),
                             AffineDisplacement(h, t, p2), AffineDisplacement(h, t, p3));
    StrainIsSymmetricGradient(s, w);
    AffineGradientRecovered(p0, p1, p2, p3, h.r0, t.x);
    AffineGradientRecovered(p0, p1, p2, p3, h.r1, t.y);
    AffineGradientRecovered(p0, p1, p2, p3, h.r2, t.z);
    assert DisplacementGradient(s, w) == h;
  }

  // ---------------------------------------------------------------- elasticity

  /** The elasticity formula divides by 1 + poisson and 1 - 2 * poisson. */
  predicate ElasticityDefined(poisson: real) {
    (1.0 + poisson) * (1.0 - 2.0 * poisson) != 0.0
  }

  function Lambda(young: real, poisson: real): real
    requires ElasticityDefined(poisson)
  {
    young * poisson / ((1.0 + poisson) * (1.0 - 2.0 * poisson))
  }

  function Shear(young: real, poisson: real): real
    requires ElasticityDefined(poisson)
  {
    assert 1.0 + poisson != 0.0;
    young / (2.0 * (1.0 + poisson))
  }

  function ElasticityEntry(lame: real, shear: real, row: nat, column: nat): real {
    if row < 3 && column < 3 then (if row == column then lame + 2.0 * shear else lame)
    else if row == column then shear else 0.0
  }

  function ElasticityMatrix(lame: real, shear: real): (d: Matrix)
    ensures IsMatrix(d, 6, 6)
  {
    seq(6, row requires 0 <= row < 6 => seq(6, c requires 0 <= c < 6 => ElasticityEntry(lame, shear, row, c)))
  }

  method BuildElasticity(young: real, poisson: real) returns (d: Matrix)
    requires ElasticityDefined(poisson)
    ensures d == ElasticityMatrix(Lambda(young, poisson), Shear(young, poisson))
  {
    var lame, shear := Lambda(young, poisson), Shear(young, poisson);
    d := seq(6, _ => seq(6, _ => 0.0));
    for row := 0 to 3
      invariant IsMatrix(d, 6, 6)
      invariant forall r, c :: 0 <= r < 6 && 0 <= c < 6 ==>
                                 d[r][c] == if r < row && c < 3 then ElasticityEntry(lame, shear, r, c) else 0.0
    {
      var values := d[row];
      for column := 0 to 3
        invariant |values| == 6
        invariant forall c :: 0 <= c < 6 ==> values[c] == if c < column then ElasticityEntry(lame, shear, row, c) else 0.0
      {
        values := values[column := if row == column then lame + 2.0 * shear else lame];
      }
      d := d[row := values];
    }
    d := d[3 := d[3][3 := shear]];
    d := d[4 := d[4][4 := shear]];
    d := d[5 := d[5][5 := shear]];
    assert forall r :: 0 <= r < 6 ==> d[r] == ElasticityMatrix(lame, shear)[r];
  }

  lemma StressRow(lame: real, shear: real, e: Vector, row: nat)
    requires |e| == 6 && row < 6
    ensures Dot(ElasticityMatrix(lame, shear)[row], e)
         == if row < 3 then lame * (e[0] + e[1] + e[2]) + 2.0 * shear * e[row] else shear * e[row]
  {
    Dot6(ElasticityMatrix(lame, shear)[row], e);
  }

  /** The elastic form, written out. */
  function ElasticForm(lame: real, shear: real, x: Vector, y: Vector): real
    requires |x| == 6 && |y| == 6
  {
    lame * ((x[0] + x[1] + x[2]) * (y[0] + y[1] + y[2]))
    + 2.0 * shear * (x[0] * y[0] + x[1] * y[1] + x[2] * y[2])
    + shear * (x[3] * y[3] + x[4] * y[4] + x[5] * y[5])
  }

  lemma Form6(m: Matrix, x: Vector, y: Vector)
    requires IsMatrix(m, 6, 6) && |x| == 6 && |y| == 6
    ensures Form(m, x, y) == x[0] * Dot(m[0], y) + x[1] * Dot(m[1], y) + x[2] * Dot(m[2], y)
                           + x[3] * Dot(m[3], y) + x[4] * Dot(m[4], y) + x[5] * Dot(m[5], y)
  {
    var s := Apply(m, y);
    Dot6(x, s);
    hide Dot;
    assert s[0] == Dot(m[0], y) && s[1] == Dot(m[1], y) && s[2] == Dot(m[2], y);
    assert s[3] == Dot(m[3], y) && s[4] == Dot(m[4], y) && s[5] == Dot(m[5], y);
    hide Apply;
    SameTerms(x, s, [Dot(m[0], y), Dot(m[1], y), Dot(m[2], y), Dot(m[3], y), Dot(m[4], y), Dot(m[5], y)]);
  }

  lemma SameTerms(x: Vector, s: Vector, t: Vector)
    requires |x| == |s| == 6 && s == t
    ensures x[0] * s[0] + x[1] * s[1] + x[2] * s[2] + x[3] * s[3] + x[4] * s[4] + x[5] * s[5]
         == x[0] * t[0] + x[1] * t[1] + x[2] * t[2] + x[3] * t[3] + x[4] * t[4] + x[5] * t[5]
  {
  }

  lemma ElasticFormIs(lame: real, shear: real, x: Vector, y: Vector)
    requires |x| == 6 && |y| == 6
    ensures Form(ElasticityMatrix(lame, shear), x, y) == ElasticForm(lame, shear, x, y)
  {
    hide Form, Dot, ElasticityMatrix;
    var m := ElasticityMatrix(lame, shear);
    Form6(m, x, y);
    StressRow(lame, shear, y, 0);
    StressRow(lame, shear, y, 1);
    StressRow(lame, shear, y, 2);
    ElasticScalars(lame, shear, x[0], x[1], x[2], y[0], y[1], y[2], Dot(m[0], y), Dot(m[1], y), Dot(m[2], y));
    StressRow(lame, shear, y, 3);
    StressRow(lame, shear, y, 4);
    StressRow(lame, shear, y, 5);
    ShearScalars(shear, x[3], x[4], x[5], y[3], y[4], y[5], Dot(m[3], y), Dot(m[4], y), Dot(m[5], y));
  }

  lemma ShearScalars(shear: real, a: real, b: real, c: real, p: real, q: real, r: real, s0: real, s1: real, s2: real)
    requires s0 == shear * p && s1 == shear * q && s2 == shear * r
    ensures a * s0 + b * s1 + c * s2 == shear * (a * p + b * q + c * r)
  {
    assert a * s0 == shear * (a * p);
    assert b * s1 == shear * (b * q);
    assert c * s2 == shear * (c * r);
  }

  lemma ElasticScalars(lame: real, shear: real, a: real, b: real, c: real, p: real, q: real, r: real, s0: real, s1: real, s2: real)
    requires s0 == lame * (p + q + r) + 2.0 * shear * p
    requires s1 == lame * (p + q + r) + 2.0 * shear * q
    requires s2 == lame * (p + q + r) + 2.0 * shear * r
    ensures a * s0 + b * s1 + c * s2
         == lame * ((a + b + c) * (p + q + r)) + 2.0 * shear * (a * p + b * q + c * r)
  {
    var tr := p + q + r;
    assert a * s0 == lame * (a * tr) + 2.0 * shear * (a * p);
    assert b * s1 == lame * (b * tr) + 2.0 * shear * (b * q);
    assert c * s2 == lame * (c * tr) + 2.0 * shear * (c * r);
    assert (a + b + c) * tr == a * tr + b * tr + c * tr;
    assert lame * (a * tr + b * tr + c * tr) == lame * (a * tr) + lame * (b * tr) + lame * (c * tr);
  }

  lemma ElasticFormSymmetric(lame: real, shear: real, x: Vector, y: Vector)
    requires |x| == 6 && |y| == 6
    ensures Form(ElasticityMatrix(lame, shear), x, y) == Form(ElasticityMatrix(lame, shear), y, x)
  {
    ElasticFormIs(lame, shear, x, y);
    ElasticFormIs(lame, shear, y, x);
  }

  /** Within the physical range the bulk modulus lame + 2/3 shear and the
      shear modulus are positive. */
  lemma ModuliPositive(young: real, poisson: real)
    requires young > 0.0 && -1.0 < poisson < 0.5
    ensures ElasticityDefined(poisson)
    ensures Shear(young, poisson) > 0.0
    ensures 3.0 * Lambda(young, poisson) + 2.0 * Shear(young, poisson) > 0.0
  {
    var a, b := 1.0 + poisson, 1.0 - 2.0 * poisson;
    assert a > 0.0 && b > 0.0;
    assert a * b > 0.0;
    ModuliScalars(young, poisson, a, b);
  }

  lemma ModuliScalars(young: real, poisson: real, a: real, b: real)
    requires young > 0.0 && a == 1.0 + poisson && b == 1.0 - 2.0 * poisson && a > 0.0 && b > 0.0
    ensures a * b > 0.0
    ensures young / (2.0 * a) > 0.0
    ensures 3.0 * (young * poisson / (a * b)) + 2.0 * (young / (2.0 * a)) > 0.0
  {
    var ab := a * b;
    var shear := young / (2.0 * a);
    PositiveQuotient(young, 2.0 * a);
    var k := 3.0 * (young * poisson / ab) + 2.0 * shear;
    assert shear * (2.0 * a) == young;
    assert 2.0 * shear * ab == (shear * (2.0 * a)) * b == young * b;
    assert (young * poisson / ab) * ab == young * poisson;
    assert k * ab == 3.0 * ((young * poisson / ab) * ab) + 2.0 * shear * ab;
    assert k * ab == young * (3.0 * poisson + b) == young * a;
    assert k == (young * a) / ab;
    PositiveQuotient(young * a, ab);
  }

  lemma PositiveQuotient(n: real, d: real)
    requires n > 0.0 && d > 0.0
    ensures n / d > 0.0
  {
  }

  /** Elastic energy density is never negative. */
  lemma ElasticFormNonNegative(lame: real, shear: real, x: Vector)
    requires |x| == 6 && shear > 0.0 && 3.0 * lame + 2.0 * shear > 0.0
    ensures ElasticForm(lame, shear, x, x) >= 0.0
  {
    var (a, b, c) := (x[0], x[1], x[2]);
    var tr := a + b + c;
    var deviator := (a - b) * (a - b) + (b - c) * (b - c) + (c - a) * (c - a);
    SquareNonNegative(a - b);
    SquareNonNegative(b - c);
    SquareNonNegative(c - a);
    SquareNonNegative(tr);
    SquareNonNegative(x[3]);
    SquareNonNegative(x[4]);
    SquareNonNegative(x[5]);
    var q := a * a + b * b + c * c;
    assert 3.0 * q == tr * tr + deviator;
    var tail := x[3] * x[3] + x[4] * x[4] + x[5] * x[5];
    ProductNonNegative(shear, tail);
    ProductNonNegative(shear, deviator);
    ProductNonNegative(3.0 * lame + 2.0 * shear, tr * tr);
    assert 3.0 * (lame * (tr * tr) + 2.0 * shear * q)
        == (3.0 * lame + 2.0 * shear) * (tr * tr) + 2.0 * (shear * deviator) by {
      assert 2.0 * shear * (3.0 * q) == 2.0 * shear * (tr * tr + deviator);
    }
  }

  /** Among the Poisson ratios the validator admits, the formula is undefined
      at -1 and nowhere else. */
  lemma ElasticityPole(poisson: real)
    requires -1.0 <= poisson < 0.5
    ensures ElasticityDefined(poisson) <==> poisson != -1.0
  {
    if poisson != -1.0 {
      assert (1.0 + poisson) * (1.0 - 2.0 * poisson) > 0.0;
    }
  }
}
