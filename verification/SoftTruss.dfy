/** One soft bar, held so that only its free end can move along it: a model
    with exactly one solution that the solver may still refuse. */
module SoftTruss {
  import opened Results
  import opened RealVectors
  import opened Linalg
  import opened LinearForms
  import opened FeaTypes
  import opened Elements
  import opened Assembly
  import opened Loads
  import opened Elimination
  import opened DenseSolver
  import opened Constraints
  import opened Mechanisms
  import opened Validation
  import opened Solve

  /** A bar of unit length and area along x, pulled at its free end. */
  function SoftModel(young: real): FeaModel {
    FeaModel(
      FEA_MODEL_SCHEMA_V1,
      "c",
      [Vec3(0.0, 0.0, 0.0), Vec3(1.0, 0.0, 0.0)],
      [Material(1, young, 0.0, None)],
      [Element(1, LinearTruss2(0, 1, 1, 1.0))],
      [Constraint(0, Some(0.0), Some(0.0), Some(0.0)), Constraint(1, None, Some(0.0), Some(0.0))],
      [NodalForce(1, Vec3(1.0, 0.0, 0.0))])
  }

  function SoftSettings(tolerance: real): Settings {
    Settings(2, tolerance, 0.5, 0.5)
  }

  // ---------------------------------------------------------------- accepted

  lemma UnitRoot(sqrt: real -> real, x: real)
    requires IsSqrt(sqrt) && x == 1.0
    ensures sqrt(x) == 1.0
  {
    RootUnique(sqrt(x), 1.0);
  }

  /** The unit vector along x. */
  predicate IsAlong(d: Vec3) {
    d.x == 1.0 && d.y == 0.0 && d.z == 0.0
  }

  lemma UnitSquare(d: Vec3)
    requires IsAlong(d)
    ensures Dot3(d, d) == 1.0
  {
  }

  lemma ScaledByOne(d: Vec3, f: real)
    requires f == 1.0
    ensures Scale(d, f) == d
  {
  }

  lemma BarShape(sqrt: real -> real, a: Vec3, b: Vec3, delta: Vec3)
    requires delta == Sub(b, a) && Length(sqrt, delta) == 1.0
    ensures TrussGeometry(sqrt, a, b) == Some(TrussShape(1.0, delta))
  {
    hide Length, Scale, Sub;
    ScaledByOne(delta, 1.0 / 1.0);
  }

  lemma BarAlong(a: Vec3, b: Vec3)
    requires a == Vec3(0.0, 0.0, 0.0) && b == Vec3(1.0, 0.0, 0.0)
    ensures Sub(b, a) == Vec3(1.0, 0.0, 0.0) && IsAlong(Sub(b, a))
  {
  }

  lemma UnitBar(sqrt: real -> real, a: Vec3, b: Vec3)
    requires IsSqrt(sqrt) && a == Vec3(0.0, 0.0, 0.0) && b == Vec3(1.0, 0.0, 0.0)
    ensures TrussGeometry(sqrt, a, b) == Some(TrussShape(1.0, Vec3(1.0, 0.0, 0.0)))
  {
    hide TrussGeometry, IsSqrt, Dot3, Sub;
    var delta := Sub(b, a);
    BarAlong(a, b);
    UnitSquare(delta);
    UnitRoot(sqrt, Dot3(delta, delta));
    BarShape(sqrt, a, b, delta);
  }

  lemma SoftElements(sqrt: real -> real, young: real)
    requires IsSqrt(sqrt)
    ensures ElementsValid(sqrt, SoftModel(young), 1)
  {
    hide TrussGeometry, IsSqrt, TetGeometry;
    var model := SoftModel(young);
    UnitBar(sqrt, model.nodes[0], model.nodes[1]);
    assert model.materials[0].id == 1;
    assert HasMaterial(model.materials, 1);
  }

  lemma SoftConstraints(young: real)
    ensures ConstraintsValid(SoftModel(young))
  {
    var cs := SoftModel(young).constraints;
    assert |cs| == 2 && cs[0].x == Some(0.0) && cs[1].y == Some(0.0);
    forall i, j, dof: nat, v, w | 0 <= i < |cs| && 0 <= j < |cs| && Prescribes(cs[i], dof, v) && Prescribes(cs[j], dof, w)
      ensures v == w
    {
      assert cs[i].Axis(dof % 3) == Some(v) && cs[j].Axis(dof % 3) == Some(w);
    }
  }

  lemma SoftHeader(young: real, tolerance: real)
    requires 0.0 < tolerance < 1.0
    ensures var model := SoftModel(young);
            && model.schema == FEA_MODEL_SCHEMA_V1 && !Blank(model.caseId) && |model.nodes| > 0 && |model.elements| == 1
            && !TooLarge(model, SoftSettings(tolerance)) && ValidSettings(SoftSettings(tolerance))
            && forall i :: 0 <= i < |model.nodes| ==> ValidNode(model.nodes[i])
  {
    var model := SoftModel(young);
    assert model.caseId == "c" && !IsWhite(model.caseId[0]);
  }

  lemma SoftMaterials(young: real)
    requires young > 0.0
    ensures MaterialsValid(SoftModel(young).materials) && PoleFree(SoftModel(young))
  {
    assert ValidMaterial(SoftModel(young).materials[0]);
  }

  lemma SoftLoads(sqrt: real -> real, young: real)
    ensures LoadsValid(sqrt, SoftModel(young))
  {
    var model := SoftModel(young);
    assert |model.loads| == 1 && model.loads[0] == NodalForce(1, Vec3(1.0, 0.0, 0.0));
  }

  lemma SoftAccepted(sqrt: real -> real, young: real, tolerance: real)
    requires IsSqrt(sqrt) && young > 0.0 && 0.0 < tolerance < 1.0
    ensures ValidModel(sqrt, SoftModel(young), SoftSettings(tolerance)) && PoleFree(SoftModel(young))
  {
    hide SoftModel, IsSqrt, ElementsValid, MaterialsValid, LoadsValid, ConstraintsValid, PoleFree, TooLarge, Blank, ValidSettings, ValidNode;
    SoftHeader(young, tolerance);
    SoftMaterials(young);
    SoftElements(sqrt, young);
    SoftConstraints(young);
    SoftLoads(sqrt, young);
  }

  // ---------------------------------------------------------------- stiffness and loads

  lemma SoftPiece(sqrt: real -> real, young: real)
    requires IsSqrt(sqrt) && AllReady(sqrt, SoftModel(young))
    ensures PieceAt(sqrt, SoftModel(young), 0) == Piece(Index([0, 1]), Bar(TrussShape(1.0, Vec3(1.0, 0.0, 0.0)), young, 1.0))
  {
    hide TrussGeometry, TetGeometry, IsSqrt, AllReady, Index;
    var model := SoftModel(young);
    UnitBar(sqrt, model.nodes[0], model.nodes[1]);
    assert FindMaterial(model.materials, 1) == Some(model.materials[0]);
    assert model.elements[0].kind.Nodes() == [0, 1];
  }

  lemma WholeIndex(index: seq<nat>, v: Vector)
    requires index == Index([0, 1]) && |v| == 6
    ensures IsIndex(index, 6) && Gather(v, index) == v
  {
    forall l | 0 <= l < 6
      ensures index[l] == l
    {
      assert index[l] == [0, 1][l / 3] * 3 + l % 3;
    }
  }

  /** The signs of the bar's six degrees of freedom along x. */
  function Cosine(i: nat): real {
    if i == 0 then -1.0 else if i == 3 then 1.0 else 0.0
  }

  lemma BarCosine(i: nat)
    requires i < 6
    ensures TrussCosines(TrussShape(1.0, Vec3(1.0, 0.0, 0.0)))[i] == Cosine(i)
  {
  }

  lemma SoftStiffness(sqrt: real -> real, young: real)
    requires AllReady(sqrt, SoftModel(young))
    ensures |SoftModel(young).nodes| == 2
    ensures Stiffness(sqrt, SoftModel(young)) == AddPiece(ZeroMatrix(6), 6, PieceAt(sqrt, SoftModel(young), 0))
  {
    hide AddPiece, PieceAt, AllReady, ZeroMatrix;
    var model := SoftModel(young);
    assert StiffnessTo(sqrt, model, 0) == ZeroMatrix(6);
    assert StiffnessTo(sqrt, model, 1) == AddPiece(StiffnessTo(sqrt, model, 0), 6, PieceAt(sqrt, model, 0));
  }

  lemma UnitFactor(young: real, area: real, length: real)
    requires area == 1.0 && length == 1.0
    ensures AxialFactor(young, area, length) == young
  {
  }

  lemma SoftForm(sqrt: real -> real, young: real, v: Vector, u: Vector)
    requires IsSqrt(sqrt) && AllReady(sqrt, SoftModel(young)) && |v| == |u| == 6
    ensures var c := TrussCosines(TrussShape(1.0, Vec3(1.0, 0.0, 0.0)));
            Form(Stiffness(sqrt, SoftModel(young)), v, u) == young * Dot(c, v) * Dot(c, u)
  {
    hide Stiffness, AddPiece, PieceAt, Form, Dot, AllReady, TrussCosines, AxialFactor, IsSqrt, LocalMatrix, ZeroMatrix, Index, Gather, IsIndex;
    var piece := PieceAt(sqrt, SoftModel(young), 0);
    SoftStiffness(sqrt, young);
    SoftPiece(sqrt, young);
    WholeIndex(piece.index, v);
    WholeIndex(piece.index, u);
    AddPieceForm(ZeroMatrix(6), 6, piece, v, u);
    ZeroForm(6, v, u);
    BarForm(piece.part, v, u);
    UnitFactor(young, piece.part.area, piece.part.truss.length);
  }

  lemma SoftEntry(sqrt: real -> real, young: real, i: nat, j: nat)
    requires IsSqrt(sqrt) && AllReady(sqrt, SoftModel(young)) && i < 6 && j < 6
    ensures Stiffness(sqrt, SoftModel(young))[i][j] == young * Cosine(i) * Cosine(j)
  {
    hide Form, Stiffness, AllReady, IsSqrt, TrussCosines, Unit, Cosine;
    var c := TrussCosines(TrussShape(1.0, Vec3(1.0, 0.0, 0.0)));
    FormEntry(Stiffness(sqrt, SoftModel(young)), 6, i, j);
    SoftForm(sqrt, young, Unit(6, i), Unit(6, j));
    DotRangeCommutes(c, Unit(6, i), 0, 6);
    DotRangeCommutes(c, Unit(6, j), 0, 6);
    UnitDot(6, i, c);
    UnitDot(6, j, c);
    BarCosine(i);
    BarCosine(j);
  }

  // ---------------------------------------------------------------- what is left to solve

  /** Every degree of freedom but the free one, and its zero. */
  ghost predicate HoldsAllBut3(prescribed: map<nat, real>) {
    forall d: nat :: (d in prescribed <==> d < 6 && d != 3) && (d in prescribed ==> prescribed[d] == 0.0)
  }

  lemma SoftCollected(young: real)
    ensures HoldsAllBut3(Collected(SoftModel(young).constraints))
  {
    var cs := SoftModel(young).constraints;
    var p := Collected(cs);
    CollectedHolds(cs);
    hide Collected;
    assert |cs| == 2;
    forall d: nat
      ensures (d in p <==> d < 6 && d != 3) && (d in p ==> p[d] == 0.0)
    {
      if d in p {
        var i :| 0 <= i < |cs| && Prescribes(cs[i], d, p[d]);
        assert cs[i].Axis(d % 3) == Some(p[d]);
      }
      if d < 6 && d != 3 {
        var i := if d < 3 then 0 else 1;
        assert Prescribes(cs[i], d, 0.0);
      }
    }
  }

  lemma SoftForces(sqrt: real -> real, young: real)
    ensures LoadsFit(SoftModel(young)) && |Forces(sqrt, SoftModel(young))| == 6 && Forces(sqrt, SoftModel(young))[3] == 1.0
  {
    var model := SoftModel(young);
    assert LoadFits(model.loads[0], 2);
    assert ForcesTo(sqrt, model, 0) == seq(6, _ => 0.0);
    assert ForcesTo(sqrt, model, 1) == AddLoad(sqrt, model.nodes, ForcesTo(sqrt, model, 0), model.loads[0]);
  }

  function Larger(young: real): real {
    if young > 1.0 then young else 1.0
  }

  lemma SmallProduct(young: real, a: nat, b: nat)
    requires young > 0.0
    ensures Abs(young * Cosine(a) * Cosine(b)) <= young
    ensures a == 3 && b == 3 ==> young * Cosine(a) * Cosine(b) == young
  {
  }

  lemma SoftScale(sqrt: real -> real, young: real)
    requires IsSqrt(sqrt) && AllReady(sqrt, SoftModel(young)) && young > 0.0
    ensures IsScale(Stiffness(sqrt, SoftModel(young)), Larger(young))
  {
    hide Stiffness, AllReady, IsSqrt, Cosine;
    var k := Stiffness(sqrt, SoftModel(young));
    assert IsMatrix(k, 6, 6);
    forall i, j | 0 <= i < |k| && 0 <= j < |k[i]|
      ensures Abs(k[i][j]) <= Larger(young)
    {
      SoftEntry(sqrt, young, i, j);
      SmallProduct(young, i, j);
    }
    SoftEntry(sqrt, young, 3, 3);
    SmallProduct(young, 3, 3);
    assert Abs(k[3][3]) == young;
  }

  /** The system left is diagonal: the scale where the bar is held, its own
      stiffness where it is free. */
  lemma SoftSystem(k: Matrix, f: Vector, prescribed: map<nat, real>, scale: real)
    requires |f| == 6 && IsMatrix(k, 6, 6) && HoldsAllBut3(prescribed)
    ensures var m := Constrained(k, f, prescribed, scale, 6).m;
            Diagonal(m, 6) && forall i :: 0 <= i < 6 ==> m[i][i] == if i == 3 then k[3][3] else scale
  {
    hide ConstrainedForce;
    var m := Constrained(k, f, prescribed, scale, 6).m;
    forall i | 0 <= i < 6
      ensures m[i] == ConstrainedRow(k, 6, prescribed, scale, 6, i)
    {
    }
    hide Constrained;
  }

  lemma SoftThreshold(young: real, tolerance: real)
    requires young > 0.0 && 0.0 < tolerance < 1.0
    ensures Threshold(Larger(young), tolerance) >= 0.0 && Threshold(Larger(young), tolerance) < Larger(young)
    ensures young <= Threshold(Larger(young), tolerance) <==> young <= tolerance
  {
    ThresholdSign(Larger(young), tolerance);
    ThresholdBelow(Larger(young), tolerance);
    assert young <= 1.0 ==> Threshold(Larger(young), tolerance) == tolerance;
  }

  lemma SystemRefused(k: Matrix, f: Vector, prescribed: map<nat, real>, young: real, tolerance: real)
    requires |f| == 6 && IsMatrix(k, 6, 6) && HoldsAllBut3(prescribed) && k[3][3] == young
    requires young > 0.0 && 0.0 < tolerance < 1.0 && IsScale(k, Larger(young))
    ensures var s := Constrained(k, f, prescribed, Larger(young), 6); NoUsablePivot(s.m, s.b, tolerance) <==> young <= tolerance
  {
    hide IsScale, Constrained, NoUsablePivot, Threshold, Refused;
    var scale := Larger(young);
    var s := Constrained(k, f, prescribed, scale, 6);
    var threshold := Threshold(scale, tolerance);
    SoftSystem(k, f, prescribed, scale);
    SoftThreshold(young, tolerance);
    ConstrainedScale(k, f, prescribed, scale, 0);
    AtScale(s.m, s.b, tolerance, scale);
    DiagonalRefused(s, threshold);
    hide Diagonal;
    assert young <= threshold ==> Abs(s.m[3][3]) <= threshold;
  }

  /** The displacement that the free end takes. */
  function Stretched(young: real): Vector
    requires young > 0.0
  {
    Zeros(6)[3 := 1.0 / young]
  }

  lemma FreeRowOnly(row: Vector, u: Vector)
    requires |row| == |u| == 6 && forall d :: 0 <= d < 6 && d != 3 ==> u[d] == 0.0
    ensures Dot(row, u) == row[3] * u[3]
  {
    Dot6(row, u);
  }

  lemma SoftSolution(k: Matrix, f: Vector, prescribed: map<nat, real>, young: real, u: Vector)
    requires |f| == 6 && IsMatrix(k, 6, 6) && HoldsAllBut3(prescribed) && k[3][3] == young && f[3] == 1.0 && young > 0.0
    ensures SolvesConstrained(k, f, prescribed, u) <==> u == Stretched(young)
  {
    hide Dot;
    DivideBack(young, 1.0);
    if u == Stretched(young) {
      FreeRowOnly(k[3], u);
    }
    if SolvesConstrained(k, f, prescribed, u) {
      assert forall d :: 0 <= d < 6 && d != 3 ==> u[d] == 0.0;
      FreeRowOnly(k[3], u);
      assert Dot(k[3], u) == f[3];
      CancelFactor(young, u[3], 1.0 / young);
    }
  }

  /** Stiffness, forces and prescribed values of the model. */
  lemma SoftFacts(sqrt: real -> real, young: real)
    requires IsSqrt(sqrt) && AllReady(sqrt, SoftModel(young)) && LoadsFit(SoftModel(young)) && young > 0.0
    ensures var (k, f, p) := (Stiffness(sqrt, SoftModel(young)), Forces(sqrt, SoftModel(young)), Collected(SoftModel(young).constraints));
            && |SoftModel(young).nodes| == 2 && |f| == 6 && IsMatrix(k, 6, 6) && HoldsAllBut3(p)
            && k[3][3] == young && f[3] == 1.0 && IsScale(k, Larger(young))
  {
    hide Stiffness, Forces, AllReady, LoadsFit, IsSqrt, Collected, IsScale, Cosine, HoldsAllBut3;
    SoftCollected(young);
    SoftForces(sqrt, young);
    SoftScale(sqrt, young);
    SoftEntry(sqrt, young, 3, 3);
    SmallProduct(young, 3, 3);
  }

  lemma SoftUnsolvable(sqrt: real -> real, young: real, tolerance: real)
    requires IsSqrt(sqrt) && AllReady(sqrt, SoftModel(young)) && LoadsFit(SoftModel(young)) && young > 0.0 && 0.0 < tolerance < 1.0
    ensures Unsolvable(sqrt, SoftModel(young), tolerance) <==> young <= tolerance
  {
    hide Stiffness, Forces, AllReady, LoadsFit, IsSqrt, Collected, Constrained, NoUsablePivot, IsScale, Unsolvable, HoldsAllBut3, SoftModel;
    var model := SoftModel(young);
    SoftFacts(sqrt, young);
    SystemRefused(Stiffness(sqrt, model), Forces(sqrt, model), Collected(model.constraints), young, tolerance);
    UnsolvableAt(sqrt, model, tolerance, Larger(young));
  }

  lemma HeldInRange(prescribed: map<nat, real>)
    requires HoldsAllBut3(prescribed)
    ensures forall d :: d in prescribed ==> d < 6
  {
  }

  lemma SoftSatisfied(sqrt: real -> real, young: real, u: Vector)
    requires IsSqrt(sqrt) && AllReady(sqrt, SoftModel(young)) && LoadsFit(SoftModel(young)) && young > 0.0
    requires Consistent(SoftModel(young).constraints)
    ensures Satisfies(sqrt, SoftModel(young), u) <==> u == Stretched(young)
  {
    hide Stiffness, Forces, AllReady, LoadsFit, IsSqrt, Collected, IsScale, Satisfies, SolvesConstrained, Collects, Consistent,
         HoldsAllBut3, Stretched, SoftModel;
    var model := SoftModel(young);
    var p := Collected(model.constraints);
    SoftFacts(sqrt, young);
    CollectedHolds(model.constraints);
    HeldInRange(p);
    SatisfiesExactly(sqrt, model, p, u);
    SoftSolution(Stiffness(sqrt, model), Forces(sqrt, model), p, young, u);
  }

  /** The accepted model has one displacement that satisfies it, whatever its
      stiffness, and is refused exactly when the stiffness does not exceed the
      relative pivot tolerance. */
  lemma SoftTrussRefused(sqrt: real -> real, young: real, tolerance: real)
    requires IsSqrt(sqrt) && young > 0.0 && 0.0 < tolerance < 1.0
    ensures ValidModel(sqrt, SoftModel(young), SoftSettings(tolerance)) && PoleFree(SoftModel(young))
    ensures AllReady(sqrt, SoftModel(young)) && LoadsFit(SoftModel(young))
    ensures forall u :: Satisfies(sqrt, SoftModel(young), u) <==> u == Stretched(young)
    ensures Unsolvable(sqrt, SoftModel(young), tolerance) <==> young <= tolerance
  {
    hide IsSqrt, AllReady, LoadsFit, PoleFree, ElementsValid, MaterialsValid, LoadsValid, Satisfies, Unsolvable, SoftModel, Stretched, AllPhysical,
         Blank, TooLarge, Consistent;
    SoftAccepted(sqrt, young, tolerance);
    ValidModelReady(sqrt, SoftModel(young), SoftSettings(tolerance));
    SoftUnsolvable(sqrt, young, tolerance);
    forall u
      ensures Satisfies(sqrt, SoftModel(young), u) <==> u == Stretched(young)
    {
      SoftSatisfied(sqrt, young, u);
    }
  }
}
