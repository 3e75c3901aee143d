/** What the material constants mean: the elasticity matrix is Hooke's law, and
    an affine displacement stores the energy that the law gives it. */
module Hooke {
  import opened RealVectors
  import opened Linalg
  import opened LinearForms
  import opened FeaTypes
  import opened Elements
  import opened Assembly
  import Moments

  // ---------------------------------------------------------------- stress and strain

  /** A stress stretches its own direction by 1 / young, and the two others
      shorten it by poisson / young. */
  predicate Stretches(young: real, poisson: real, strain: real, along: real, across: real, other: real) {
    young * strain == along - poisson * (across + other)
  }

  /** A shear stress turns by 2 (1 + poisson) / young. */
  predicate Turns(young: real, poisson: real, strain: real, stress: real) {
    young * strain == 2.0 * (1.0 + poisson) * stress
  }

  /** Hooke's law in its textbook form. */
  ghost predicate ObeysHooke(young: real, poisson: real, strain: Vector, stress: Vector) {
    && |strain| == 6 && |stress| == 6
    && Stretches(young, poisson, strain[0], stress[0], stress[1], stress[2])
    && Stretches(young, poisson, strain[1], stress[1], stress[2], stress[0])
    && Stretches(young, poisson, strain[2], stress[2], stress[0], stress[1])
    && (forall k :: 3 <= k < 6 ==> Turns(young, poisson, strain[k], stress[k]))
  }

  function StressOf(young: real, poisson: real, strain: Vector): (stress: Vector)
    requires ElasticityDefined(poisson) && |strain| == 6
    ensures |stress| == 6
  {
    Apply(ElasticityMatrix(Lambda(young, poisson), Shear(young, poisson)), strain)
  }

  lemma ShearMeans(young: real, poisson: real)
    requires ElasticityDefined(poisson)
    ensures 2.0 * Shear(young, poisson) * (1.0 + poisson) == young
  {
    DivideBack(2.0 * (1.0 + poisson), young);
  }

  /** Both moduli by what they do. */
  predicate Moduli(lame: real, shear: real, young: real, poisson: real) {
    2.0 * shear * (1.0 + poisson) == young && lame * (1.0 - 2.0 * poisson) == 2.0 * shear * poisson
  }

  lemma ModuliMean(young: real, poisson: real)
    requires ElasticityDefined(poisson)
    ensures Moduli(Lambda(young, poisson), Shear(young, poisson), young, poisson)
  {
    hide Lambda, Shear;
    var (a, b) := (1.0 + poisson, 1.0 - 2.0 * poisson);
    var (lame, shear) := (Lambda(young, poisson), Shear(young, poisson));
    ShearMeans(young, poisson);
    LambdaProduct(young, poisson);
    FactorOut(a, lame * b, 2.0 * shear * poisson, lame, b, shear, poisson, young);
  }

  lemma LambdaProduct(young: real, poisson: real)
    requires ElasticityDefined(poisson)
    ensures ((1.0 + poisson) * (1.0 - 2.0 * poisson)) * Lambda(young, poisson) == young * poisson
  {
    DivideBack((1.0 + poisson) * (1.0 - 2.0 * poisson), young * poisson);
  }

  lemma FactorOut(a: real, x: real, y: real, lame: real, b: real, shear: real, poisson: real, young: real)
    requires x == lame * b && y == 2.0 * shear * poisson && a != 0.0
    requires (a * b) * lame == young * poisson && 2.0 * shear * a == young
    ensures x == y
  {
    assert a * x == (a * b) * lame;
    assert a * y == (2.0 * shear * a) * poisson;
    CancelFactor(a, x, y);
  }

  lemma NormalLaw(lame: real, shear: real, young: real, poisson: real, p: real, q: real, r: real, s: real, t: real, u: real)
    requires Moduli(lame, shear, young, poisson)
    requires s == NormalStress(lame, shear, p, q, r) && t == NormalStress(lame, shear, q, r, p) && u == NormalStress(lame, shear, r, p, q)
    ensures Stretches(young, poisson, p, s, t, u)
  {
    var (tr, m) := (p + q + r, 2.0 * shear);
    assert poisson * (lame * tr) == lame * poisson * tr;
    assert lame * tr - 2.0 * (lame * poisson * tr) == lame * (1.0 - 2.0 * poisson) * tr;
    assert lame * (1.0 - 2.0 * poisson) * tr == m * poisson * tr;
    assert m * p - poisson * (m * q) - poisson * (m * r) == m * (1.0 + poisson) * p - m * poisson * tr;
  }

  function NormalStress(lame: real, shear: real, along: real, across: real, other: real): real {
    lame * (along + across + other) + 2.0 * shear * along
  }

  lemma ShearLaw(lame: real, shear: real, young: real, poisson: real, p: real, s: real)
    requires Moduli(lame, shear, young, poisson) && s == Product(shear, p)
    ensures Turns(young, poisson, p, s)
  {
    assert 2.0 * (1.0 + poisson) * (shear * p) == 2.0 * shear * (1.0 + poisson) * p;
  }

  lemma StressEntries(young: real, poisson: real, strain: Vector)
    requires ElasticityDefined(poisson) && |strain| == 6
    ensures Isotropic(Lambda(young, poisson), Shear(young, poisson), strain, StressOf(young, poisson, strain))
  {
    hide Lambda, Shear, ElasticityMatrix, Dot;
    var (lame, shear) := (Lambda(young, poisson), Shear(young, poisson));
    forall row | 0 <= row < 6
      ensures StressOf(young, poisson, strain)[row]
           == if row < 3 then lame * (strain[0] + strain[1] + strain[2]) + 2.0 * shear * strain[row] else shear * strain[row]
    {
      StressRow(lame, shear, strain, row);
    }
    hide StressOf, NormalStress;
    var tr := strain[0] + strain[1] + strain[2];
    NormalStressIs(lame, shear, strain[0], strain[1], strain[2], tr);
    NormalStressIs(lame, shear, strain[1], strain[2], strain[0], tr);
    NormalStressIs(lame, shear, strain[2], strain[0], strain[1], tr);
  }

  lemma NormalStressIs(lame: real, shear: real, p: real, q: real, r: real, tr: real)
    requires tr == p + q + r
    ensures NormalStress(lame, shear, p, q, r) == lame * tr + 2.0 * shear * p
  {
  }

  /** The stress of isotropic elasticity, entry by entry. */
  ghost predicate Isotropic(lame: real, shear: real, e: Vector, s: Vector) {
    && |e| == 6 && |s| == 6
    && s[0] == NormalStress(lame, shear, e[0], e[1], e[2])
    && s[1] == NormalStress(lame, shear, e[1], e[2], e[0])
    && s[2] == NormalStress(lame, shear, e[2], e[0], e[1])
    && (forall k :: 3 <= k < 6 ==> s[k] == Product(shear, e[k]))
  }

  lemma IsotropicObeys(lame: real, shear: real, young: real, poisson: real, e: Vector, s: Vector)
    requires Isotropic(lame, shear, e, s) && Moduli(lame, shear, young, poisson)
    ensures ObeysHooke(young, poisson, e, s)
  {
    hide Moduli, Stretches, Turns, NormalStress, Product;
    NormalLaw(lame, shear, young, poisson, e[0], e[1], e[2], s[0], s[1], s[2]);
    NormalLaw(lame, shear, young, poisson, e[1], e[2], e[0], s[1], s[2], s[0]);
    NormalLaw(lame, shear, young, poisson, e[2], e[0], e[1], s[2], s[0], s[1]);
    forall k | 3 <= k < 6
      ensures Turns(young, poisson, e[k], s[k])
    {
      ShearLaw(lame, shear, young, poisson, e[k], s[k]);
    }
  }

  lemma StressObeys(young: real, poisson: real, strain: Vector)
    requires ElasticityDefined(poisson) && |strain| == 6
    ensures ObeysHooke(young, poisson, strain, StressOf(young, poisson, strain))
  {
    hide *;
    ModuliMean(young, poisson);
    StressEntries(young, poisson, strain);
    IsotropicObeys(Lambda(young, poisson), Shear(young, poisson), young, poisson, strain, StressOf(young, poisson, strain));
  }

  /** The law leaves one stress for a strain. */
  lemma HookeUnique(young: real, poisson: real, strain: Vector, s: Vector, t: Vector)
    requires ElasticityDefined(poisson) && ObeysHooke(young, poisson, strain, s) && ObeysHooke(young, poisson, strain, t)
    ensures s == t
  {
    hide ElasticityDefined, Stretches, Turns;
    NormalsUnique(young, poisson, strain[0], strain[1], strain[2], s[0], s[1], s[2], t[0], t[1], t[2]);
    forall k | 3 <= k < 6
      ensures s[k] == t[k]
    {
      ShearUnique(young, poisson, strain[k], s[k], t[k]);
    }
  }

  lemma ShearUnique(young: real, poisson: real, e: real, a: real, p: real)
    requires ElasticityDefined(poisson) && Turns(young, poisson, e, a) && Turns(young, poisson, e, p)
    ensures a == p
  {
    CancelFactor(2.0 * (1.0 + poisson), a, p);
  }

  lemma NormalsUnique(young: real, poisson: real, d: real, e: real, f: real, a: real, b: real, c: real, p: real, q: real, r: real)
    requires ElasticityDefined(poisson)
    requires Stretches(young, poisson, d, a, b, c) && Stretches(young, poisson, e, b, c, a) && Stretches(young, poisson, f, c, a, b)
    requires Stretches(young, poisson, d, p, q, r) && Stretches(young, poisson, e, q, r, p) && Stretches(young, poisson, f, r, p, q)
    ensures a == p && b == q && c == r
  {
    hide ElasticityDefined;
    Subtracted(poisson, a, b, c, p, q, r, young * d);
    Subtracted(poisson, b, c, a, q, r, p, young * e);
    Subtracted(poisson, c, a, b, r, p, q, young * f);
    hide Stretches;
    OnlyZero(poisson, a - p, b - q, c - r);
  }

  lemma Subtracted(poisson: real, a: real, b: real, c: real, p: real, q: real, r: real, x: real)
    requires x == a - poisson * (b + c) && x == p - poisson * (q + r)
    ensures a - p == poisson * ((b - q) + (c - r))
  {
  }

  lemma OnlyZero(poisson: real, d: real, e: real, f: real)
    requires ElasticityDefined(poisson) && d == poisson * (e + f) && e == poisson * (f + d) && f == poisson * (d + e)
    ensures d == 0.0 && e == 0.0 && f == 0.0
  {
    var sum := d + e + f;
    assert (1.0 - 2.0 * poisson) * sum == 0.0;
    CancelFactor(1.0 - 2.0 * poisson, sum, 0.0);
    assert (1.0 + poisson) * d == poisson * sum;
    assert (1.0 + poisson) * e == poisson * sum;
    assert (1.0 + poisson) * f == poisson * sum;
    assert poisson * sum == 0.0;
    CancelFactor(1.0 + poisson, d, 0.0);
    CancelFactor(1.0 + poisson, e, 0.0);
    CancelFactor(1.0 + poisson, f, 0.0);
  }

  /** The elasticity matrix computes exactly the stress of Hooke's law. */
  lemma HookesLaw(young: real, poisson: real, strain: Vector, stress: Vector)
    requires ElasticityDefined(poisson) && |strain| == 6
    ensures stress == StressOf(young, poisson, strain) <==> ObeysHooke(young, poisson, strain, stress)
  {
    hide StressOf, ObeysHooke, ElasticityDefined;
    StressObeys(young, poisson, strain);
    if ObeysHooke(young, poisson, strain, stress) {
      HookeUnique(young, poisson, strain, stress, StressOf(young, poisson, strain));
    }
  }

  // ---------------------------------------------------------------- on a tetrahedron

  /** Nodal displacements of p -> h p + t on a tetrahedron. */
  function AffineOn(p0: Vec3, p1: Vec3, p2: Vec3, p3: Vec3, h: Mat3, t: Vec3): (w: Vector)
    ensures |w| == 12
  {
    TetDisplacement(AffineDisplacement(h, t, p0), AffineDisplacement(h, t, p1), AffineDisplacement(h, t, p2), AffineDisplacement(h, t, p3))
  }

  /** On every accepted tetrahedron an affine field has the stress that Hooke's
      law gives its symmetric gradient. */
  lemma PatchStress(p0: Vec3, p1: Vec3, p2: Vec3, p3: Vec3, h: Mat3, t: Vec3, young: real, poisson: real)
    requires TetGeometry(p0, p1, p2, p3).Some? && ElasticityDefined(poisson)
    ensures var strain := Apply(StrainDisplacement(TetGeometry(p0, p1, p2, p3).value), AffineOn(p0, p1, p2, p3, h, t));
            ObeysHooke(young, poisson, StrainOf(h), StressOf(young, poisson, strain))
  {
    hide ObeysHooke, StressOf, TetGeometry, StrainDisplacement, AffineDisplacement, ElasticityDefined, TetDisplacement, Apply;
    PatchStrain(p0, p1, p2, p3, h, t);
    StressObeys(young, poisson, StrainOf(h));
  }

  function Uniaxial(e: real, poisson: real): Mat3 {
    Mat3(Vec3(e, 0.0, 0.0), Vec3(0.0, -poisson * e, 0.0), Vec3(0.0, 0.0, -poisson * e))
  }

  lemma UniaxialObeys(young: real, poisson: real, e: real)
    ensures ObeysHooke(young, poisson, StrainOf(Uniaxial(e, poisson)), [young * e, 0.0, 0.0, 0.0, 0.0, 0.0])
  {
    assert young * (-poisson * e) == 0.0 - poisson * (young * e);
  }

  /** A tetrahedron stretched along x and free to contract carries the stress
      young * e along x and nothing else. */
  lemma UniaxialPatch(p0: Vec3, p1: Vec3, p2: Vec3, p3: Vec3, e: real, t: Vec3, young: real, poisson: real)
    requires TetGeometry(p0, p1, p2, p3).Some? && ElasticityDefined(poisson)
    ensures var strain := Apply(StrainDisplacement(TetGeometry(p0, p1, p2, p3).value), AffineOn(p0, p1, p2, p3, Uniaxial(e, poisson), t));
            StressOf(young, poisson, strain) == [young * e, 0.0, 0.0, 0.0, 0.0, 0.0]
  {
    hide ObeysHooke, StressOf, TetGeometry, StrainDisplacement, AffineOn, ElasticityDefined, StrainOf, Uniaxial, Apply;
    var h := Uniaxial(e, poisson);
    var stress := StressOf(young, poisson, Apply(StrainDisplacement(TetGeometry(p0, p1, p2, p3).value), AffineOn(p0, p1, p2, p3, h, t)));
    PatchStress(p0, p1, p2, p3, h, t, young, poisson);
    UniaxialObeys(young, poisson, e);
    HookeUnique(young, poisson, StrainOf(h), stress, [young * e, 0.0, 0.0, 0.0, 0.0, 0.0]);
  }

  // ---------------------------------------------------------------- stored energy

  /** A tetrahedron under an affine displacement stores half of stress times
      strain per volume. */
  lemma AffineTetEnergy(sqrt: real -> real, model: FeaModel, kind: ElementKind, h: Mat3, t: Vec3, stress: Vector)
    requires Resolve(sqrt, model, kind).Some? && kind.LinearTetrahedron4?
    requires var material := FindMaterial(model.materials, kind.materialId).value;
             ObeysHooke(material.young, material.poisson, StrainOf(h), stress)
    ensures var volume := Moments.Volume(model.nodes[kind.a], model.nodes[kind.b], model.nodes[kind.c], model.nodes[kind.d]);
            PartEnergy(Resolve(sqrt, model, kind).value, RigidLocal(model, kind, h, t)) == 0.5 * volume * Dot(StrainOf(h), stress)
  {
    hide ObeysHooke, RigidLocal, AffineDisplacement, ElasticityMatrix, StrainDisplacement, StrainOf, Lambda, Shear, ElasticityDefined, Dot, Apply,
         Inverse, Determinant, TrussGeometry, TetDisplacement;
    var material := FindMaterial(model.materials, kind.materialId).value;
    var (a, b, c, d) := (model.nodes[kind.a], model.nodes[kind.b], model.nodes[kind.c], model.nodes[kind.d]);
    RigidLocalTet(model, kind, h, t);
    PatchStrain(a, b, c, d, h, t);
    StressObeys(material.young, material.poisson, StrainOf(h));
    HookeUnique(material.young, material.poisson, StrainOf(h), stress, StressOf(material.young, material.poisson, StrainOf(h)));
    VolumeIs(a, b, c, d);
    hide TetGeometry, Moments.Volume;
  }

  lemma VolumeIs(a: Vec3, b: Vec3, c: Vec3, d: Vec3)
    ensures TetGeometry(a, b, c, d).Some? ==> TetGeometry(a, b, c, d).value.volume == Moments.Volume(a, b, c, d)
  {
    hide Inverse, Cross, Dot3, Sub;
  }

  lemma AffineStretch(sqrt: real -> real, a: Vec3, b: Vec3, h: Mat3, t: Vec3)
    requires TrussGeometry(sqrt, a, b).Some?
    ensures var (d0, d1, shape) := (AffineDisplacement(h, t, a), AffineDisplacement(h, t, b), TrussGeometry(sqrt, a, b).value);
            && shape.length == Length(sqrt, Sub(b, a)) && shape.length > 0.0
            && TrussStrain(shape, [d0.x, d0.y, d0.z, d1.x, d1.y, d1.z]) * (shape.length * shape.length)
               == Dot3(MulVec(h, Sub(b, a)), Sub(b, a))
  {
    var (d0, d1, shape) := (AffineDisplacement(h, t, a), AffineDisplacement(h, t, b), TrussGeometry(sqrt, a, b).value);
    var (d, l) := (Sub(b, a), shape.length);
    AffineDifference(h.r0, t.x, a, b);
    AffineDifference(h.r1, t.y, a, b);
    AffineDifference(h.r2, t.z, a, b);
    hide AffineField, Length, Sub;
    var u := MulVec(h, d);
    assert u == Vec3(d1.x - d0.x, d1.y - d0.y, d1.z - d0.z);
    hide MulVec, AffineDisplacement;
    Projected(u, d, 1.0 / l);
    Reciprocal(l);
    StrainScalars(l, 1.0 / l, Dot3(u, shape.direction), Dot3(u, d));
  }

  lemma Projected(u: Vec3, d: Vec3, f: real)
    ensures Dot3(u, Scale(d, f)) == f * Dot3(u, d)
  {
    assert u.x * (d.x * f) == f * (u.x * d.x);
    assert u.y * (d.y * f) == f * (u.y * d.y);
    assert u.z * (d.z * f) == f * (u.z * d.z);
  }

  lemma StrainScalars(l: real, f: real, x: real, y: real)
    requires l != 0.0 && f * l == 1.0 && x == f * y
    ensures x / l * (l * l) == y
  {
    DivideBack(l, x);
    assert x / l * (l * l) == (l * (x / l)) * l;
    assert f * y * l == (f * l) * y;
  }

  /** A truss under an affine displacement is strained by the stretch along its
      own axis, and stores half of stress times strain per area and length. */
  lemma AffineTrussEnergy(sqrt: real -> real, model: FeaModel, kind: ElementKind, h: Mat3, t: Vec3, strain: real)
    requires IsSqrt(sqrt) && Resolve(sqrt, model, kind).Some? && kind.LinearTruss2?
    requires var d := Sub(model.nodes[kind.b], model.nodes[kind.a]); strain * Dot3(d, d) == Dot3(MulVec(h, d), d)
    ensures var (d, young) := (Sub(model.nodes[kind.b], model.nodes[kind.a]), FindMaterial(model.materials, kind.materialId).value.young);
            PartEnergy(Resolve(sqrt, model, kind).value, RigidLocal(model, kind, h, t))
            == 0.5 * (young * strain) * strain * kind.area * Length(sqrt, d)
  {
    hide RigidLocal, AffineDisplacement, TrussStrain, TetGeometry, MulVec, Sub, Scale, Dot3;
    var (a, b) := (model.nodes[kind.a], model.nodes[kind.b]);
    var (d, shape) := (Sub(b, a), TrussGeometry(sqrt, a, b).value);
    RigidLocalTruss(model, kind, h, t);
    AffineStretch(sqrt, a, b, h, t);
    SquaresAreNonNegative(d);
    assert shape.length * shape.length == Dot3(d, d);
    hide IsSqrt, TrussGeometry, Length;
    var w := RigidLocal(model, kind, h, t);
    CancelFactor(shape.length * shape.length, TrussStrain(shape, w), strain);
  }

  lemma SquaresAreNonNegative(d: Vec3)
    ensures Dot3(d, d) >= 0.0
  {
    SquareNonNegative(d.x);
    SquareNonNegative(d.y);
    SquareNonNegative(d.z);
  }
}
