/** The whole solve, from validation to the reported solution. */
module Solve {
  import opened Results
  import opened RealVectors
  import opened Linalg
  import opened LinearForms
  import opened FeaTypes
  import opened Elements
  import opened Assembly
  import opened Loads
  import opened Elimination
  import opened DenseSolver
  import opened Constraints
  import opened Mechanisms
  import opened Equilibrium
  import opened Kernel
  import opened Validation

  datatype FeaSolution = FeaSolution(
    displacements: seq<Vec3>,
    reactions: seq<Vec3>,
    elementEnergies: seq<real>,
    totalEnergy: real,
    maximumFreeResidual: real,
    forceBalance: Vec3)

  // ---------------------------------------------------------------- accepted models can be assembled

  /** No tetrahedron uses a material at the pole of the elasticity formula. */
  predicate PoleFree(model: FeaModel) {
    forall e, m :: 0 <= e < |model.elements| && model.elements[e].kind.LinearTetrahedron4?
                   && 0 <= m < |model.materials| && model.materials[m].id == model.elements[e].kind.materialId ==>
                     model.materials[m].poisson != -1.0
  }

  lemma {:induction false} MaterialFound(materials: seq<Material>, id: nat)
    requires HasMaterial(materials, id)
    ensures FindMaterial(materials, id).Some?
    ensures exists m :: 0 <= m < |materials| && materials[m] == FindMaterial(materials, id).value && materials[m].id == id
    decreases |materials|
  {
    if materials[0].id != id {
      var m :| 0 <= m < |materials| && materials[m].id == id;
      assert materials[1..][m - 1].id == id;
      MaterialFound(materials[1..], id);
      var l :| 0 <= l < |materials| - 1 && materials[1..][l] == FindMaterial(materials[1..], id).value && materials[1..][l].id == id;
      assert materials[l + 1] == materials[1..][l];
    }
  }

  lemma ValidElementReady(sqrt: real -> real, model: FeaModel, e: nat)
    requires MaterialsValid(model.materials) && PoleFree(model) && e < |model.elements|
    requires ValidKind(sqrt, model, model.elements[e].kind)
    ensures var kind := model.elements[e].kind;
            Resolve(sqrt, model, kind).Some? && Physical(Resolve(sqrt, model, kind).value)
  {
    var kind := model.elements[e].kind;
    MaterialFound(model.materials, kind.materialId);
    var m :| 0 <= m < |model.materials| && model.materials[m] == FindMaterial(model.materials, kind.materialId).value
             && model.materials[m].id == kind.materialId;
    assert ValidMaterial(model.materials[m]);
    ElasticityPole(model.materials[m].poisson);
    hide TrussGeometry, TetGeometry, ElasticityDefined, Lambda, Shear, Physical;
    ResolvedPhysical(sqrt, model, kind);
  }

  lemma ValidModelReady(sqrt: real -> real, model: FeaModel, s: Settings)
    requires ValidModel(sqrt, model, s) && PoleFree(model)
    ensures AllReady(sqrt, model) && AllPhysical(sqrt, model) && LoadsFit(model)
  {
    hide Resolve, Physical, ValidKind, PoleFree;
    forall e | 0 <= e < |model.elements|
      ensures Resolve(sqrt, model, model.elements[e].kind).Some?
      ensures Physical(Resolve(sqrt, model, model.elements[e].kind).value)
    {
      ValidElementReady(sqrt, model, e);
    }
  }

  lemma PoleUnresolved(sqrt: real -> real, model: FeaModel, kind: ElementKind, m: nat)
    requires MaterialsValid(model.materials) && kind.LinearTetrahedron4?
    requires m < |model.materials| && model.materials[m].id == kind.materialId && model.materials[m].poisson == -1.0
    ensures Resolve(sqrt, model, kind).None?
  {
    hide TetGeometry, TrussGeometry, ValidMaterial;
    assert HasMaterial(model.materials, kind.materialId);
    MaterialFound(model.materials, kind.materialId);
    var l :| 0 <= l < |model.materials| && model.materials[l] == FindMaterial(model.materials, kind.materialId).value
             && model.materials[l].id == kind.materialId;
    assert l == m;
    ElasticityPole(model.materials[m].poisson);
    hide FindMaterial, ElasticityDefined;
  }

  /** Among accepted models, exactly those without a tetrahedron at the pole
      have a stiffness over the reals. */
  lemma ReadyExactly(sqrt: real -> real, model: FeaModel, s: Settings)
    requires ValidModel(sqrt, model, s)
    ensures AllReady(sqrt, model) <==> PoleFree(model)
  {
    hide Resolve, ElementsValid, ConstraintsValid, LoadsValid, ValidMaterial, Blank;
    if PoleFree(model) {
      ValidModelReady(sqrt, model, s);
    } else {
      var e, m :| 0 <= e < |model.elements| && model.elements[e].kind.LinearTetrahedron4?
                  && 0 <= m < |model.materials| && model.materials[m].id == model.elements[e].kind.materialId
                  && model.materials[m].poisson == -1.0;
      PoleUnresolved(sqrt, model, model.elements[e].kind, m);
    }
  }

  // ---------------------------------------------------------------- recovery

  function WithAxis(v: Vec3, axis: nat, value: real): Vec3 {
    if axis == 0 then v.(x := value) else if axis == 1 then v.(y := value) else v.(z := value)
  }

  /** Reactions at the constrained degrees of freedom and the largest residual elsewhere. */
  method Recover(residual: Vector, constrained: map<nat, real>) returns (reactions: seq<Vec3>, maximum: real)
    requires |residual| % 3 == 0
    ensures 3 * |reactions| == |residual|
    ensures forall d :: 0 <= d < |residual| ==> Flatten(reactions)[d] == if d in constrained then residual[d] else 0.0
    ensures forall d :: 0 <= d < |residual| && d !in constrained ==> Abs(residual[d]) <= maximum
    ensures maximum == 0.0 || exists d :: 0 <= d < |residual| && d !in constrained && maximum == Abs(residual[d])
  {
    maximum := 0.0;
    reactions := seq(|residual| / 3, _ => Vec3(0.0, 0.0, 0.0));
    for dof := 0 to |residual|
      invariant 3 * |reactions| == |residual| && maximum >= 0.0
      invariant forall d :: 0 <= d < dof ==> reactions[d / 3].Axis(d % 3) == if d in constrained then residual[d] else 0.0
      invariant forall d :: dof <= d < |residual| ==> reactions[d / 3].Axis(d % 3) == 0.0
      invariant forall d :: 0 <= d < dof && d !in constrained ==> Abs(residual[d]) <= maximum
      invariant maximum == 0.0 || exists d :: 0 <= d < dof && d !in constrained && maximum == Abs(residual[d])
    {
      if dof in constrained {
        reactions := reactions[dof / 3 := WithAxis(reactions[dof / 3], dof % 3, residual[dof])];
      } else if Abs(residual[dof]) > maximum {
        maximum := Abs(residual[dof]);
      }
    }
  }

  method Energies(sqrt: real -> real, model: FeaModel, u: Vector) returns (energies: seq<real>, total: real)
    requires AllReady(sqrt, model) && |u| == 3 * |model.nodes|
    ensures |energies| == |model.elements|
    ensures forall e :: 0 <= e < |energies| ==> energies[e] == PieceEnergy(PieceAt(sqrt, model, e), u)
    ensures total == EnergyTo(sqrt, model, |model.elements|, u)
  {
    hide PieceEnergy, PieceAt;
    energies, total := [], 0.0;
    for e := 0 to |model.elements|
      invariant |energies| == e
      invariant forall k :: 0 <= k < e ==> energies[k] == PieceEnergy(PieceAt(sqrt, model, k), u)
      invariant total == EnergyTo(sqrt, model, e, u)
    {
      var energy := PieceEnergy(PieceAt(sqrt, model, e), u);
      energies := energies + [energy];
      total := total + energy;
    }
  }

  // ---------------------------------------------------------------- equilibrium

  /** Reactions and applied forces balance over every rigid motion. */
  ghost predicate Balanced(nodes: seq<Vec3>, f: Vector, reactions: Vector)
    requires |f| == |reactions| == 3 * |nodes|
  {
    forall h, t :: Skew(h) ==> Dot(AffineVector(nodes, h, t), reactions) + Dot(AffineVector(nodes, h, t), f) == 0.0
  }

  lemma ResidualBalanced(sqrt: real -> real, model: FeaModel, u: Vector)
    requires AllReady(sqrt, model) && LoadsFit(model) && |u| == 3 * |model.nodes|
    ensures Balanced(model.nodes, Forces(sqrt, model), Residual(Stiffness(sqrt, model), Forces(sqrt, model), u))
  {
    hide Form, Dot, AffineVector, Residual, Stiffness, Forces, Skew, AllReady, LoadsFit;
    var k, f := Stiffness(sqrt, model), Forces(sqrt, model);
    forall h, t | Skew(h)
      ensures Dot(AffineVector(model.nodes, h, t), Residual(k, f, u)) + Dot(AffineVector(model.nodes, h, t), f) == 0.0
    {
      ResidualWork(k, f, u, AffineVector(model.nodes, h, t));
      StiffnessRigid(sqrt, model, h, t, u);
    }
  }

  lemma BalancedAt(nodes: seq<Vec3>, f: Vector, reactions: Vector, h: Mat3, t: Vec3, applied: real, reaction: real)
    requires |f| == |reactions| == 3 * |nodes| && Balanced(nodes, f, reactions) && Skew(h)
    requires applied == Dot(AffineVector(nodes, h, t), f) && reaction == Dot(AffineVector(nodes, h, t), reactions)
    ensures applied + reaction == 0.0
  {
    hide Dot, AffineVector, Skew;
  }

  lemma ZeroIsSkew(h: Mat3)
    requires IsZero(h)
    ensures Skew(h)
  {
  }

  /** Balance over translations: the axis sums cancel. */
  lemma BalancedSums(nodes: seq<Vec3>, f: Vector, reactions: Vector, h: Mat3, axis: nat)
    requires |f| == |reactions| == 3 * |nodes| && IsZero(h) && axis < 3
    requires Balanced(nodes, f, reactions)
    ensures AxisSum(f, axis, |f|) + AxisSum(reactions, axis, |f|) == 0.0
  {
    hide AxisSum, Dot, AffineVector, Balanced, AxisUnit, Skew;
    TranslationSum(nodes, h, axis, f);
    TranslationSum(nodes, h, axis, reactions);
    ZeroIsSkew(h);
    BalancedAt(nodes, f, reactions, h, AxisUnit(axis), AxisSum(f, axis, |f|), AxisSum(reactions, axis, |f|));
  }

  // ---------------------------------------------------------------- what a solution is

  /** `u` has every prescribed value and satisfies every free equation of the
      original, unmodified system. */
  ghost predicate Satisfies(sqrt: real -> real, model: FeaModel, u: Vector)
    requires AllReady(sqrt, model) && LoadsFit(model)
  {
    && |u| == 3 * |model.nodes|
    && (forall i, dof: nat, value :: 0 <= i < |model.constraints| && Prescribes(model.constraints[i], dof, value) ==>
                                  dof < |u| && u[dof] == value)
    && (forall dof :: 0 <= dof < |u| && Free(model, dof) ==> Dot(Stiffness(sqrt, model)[dof], u) == Forces(sqrt, model)[dof])
  }

  ghost predicate Free(model: FeaModel, dof: nat) {
    forall i, value :: 0 <= i < |model.constraints| ==> !Prescribes(model.constraints[i], dof, value)
  }

  lemma FreeExactly(model: FeaModel, prescribed: map<nat, real>, dof: nat)
    requires Collects(model.constraints, prescribed)
    ensures Free(model, dof) <==> dof !in prescribed
  {
  }

  lemma SatisfiesExactly(sqrt: real -> real, model: FeaModel, prescribed: map<nat, real>, u: Vector)
    requires AllReady(sqrt, model) && LoadsFit(model)
    requires Collects(model.constraints, prescribed) && Consistent(model.constraints)
    requires forall d :: d in prescribed ==> d < 3 * |model.nodes|
    ensures Satisfies(sqrt, model, u) <==> SolvesConstrained(Stiffness(sqrt, model), Forces(sqrt, model), prescribed, u)
  {
    hide Dot, Stiffness, Forces, AllReady, LoadsFit, Free, Prescribes, Consistent;
    var n := 3 * |model.nodes|;
    forall d: nat
      ensures Free(model, d) <==> d !in prescribed
    {
      FreeExactly(model, prescribed, d);
    }
    if SolvesConstrained(Stiffness(sqrt, model), Forces(sqrt, model), prescribed, u) {
      forall i, dof: nat, value | 0 <= i < |model.constraints| && Prescribes(model.constraints[i], dof, value)
        ensures dof < |u| && u[dof] == value
      {
        CollectedValues(model.constraints, prescribed, i, dof, value);
      }
    }
    if Satisfies(sqrt, model, u) {
      forall d | 0 <= d < n && d in prescribed
        ensures u[d] == prescribed[d]
      {
        var i :| 0 <= i < |model.constraints| && Prescribes(model.constraints[i], d, prescribed[d]);
      }
    }
  }

  /** What is reported for a displacement that satisfies the problem. */
  ghost predicate Reports(sqrt: real -> real, model: FeaModel, solution: FeaSolution)
    requires AllReady(sqrt, model) && LoadsFit(model)
  {
    var u, r := Flatten(solution.displacements), Flatten(solution.reactions);
    var k, f := Stiffness(sqrt, model), Forces(sqrt, model);
    && |u| == |r| == |f|
    && (forall dof :: 0 <= dof < |f| ==> r[dof] == Dot(k[dof], u) - f[dof])
    && (forall dof :: 0 <= dof < |f| && Free(model, dof) ==> r[dof] == 0.0)
    && solution.maximumFreeResidual == 0.0
    && solution.forceBalance == Vec3(0.0, 0.0, 0.0)
    && Balanced(model.nodes, f, r)
    && |solution.elementEnergies| == |model.elements|
    && (forall e :: 0 <= e < |model.elements| ==> solution.elementEnergies[e] >= 0.0)
    && solution.totalEnergy == 0.5 * Form(k, u, u)
    && solution.totalEnergy == 0.5 * (Dot(u, f) + Dot(u, r))
    && Dot(u, f) == WorkTo(sqrt, model, |model.loads|, u)
    && solution.totalEnergy >= 0.0
  }

  method PostProcess(sqrt: real -> real, model: FeaModel, k: Matrix, f: Vector, u: Vector, constrained: map<nat, real>)
    returns (solution: FeaSolution)
    requires AllReady(sqrt, model) && AllPhysical(sqrt, model) && LoadsFit(model)
    requires k == Stiffness(sqrt, model) && f == Forces(sqrt, model)
    requires Collects(model.constraints, constrained)
    requires SolvesConstrained(k, f, constrained, u)
    ensures Flatten(solution.displacements) == u
    ensures Reports(sqrt, model, solution)
  {
    hide AllReady, AllPhysical, LoadsFit, Stiffness, Forces, Residual, Collects, Balanced, Reports, Flatten, Chunk, AxisSum, EnergyTo, PieceEnergy, PieceAt, Dot;
    var residual := Residual(k, f, u);
    var reactions, maximum := Recover(residual, constrained);
    var energies, total := Energies(sqrt, model, u);
    var applied := VectorSum(f);
    var balance := Add(applied, SumTo(reactions, |reactions|));
    FreeResidual(k, f, u, constrained);
    ReactionsAreResidual(residual, constrained, reactions);
    assert maximum == 0.0;
    BalanceVanishes(sqrt, model, u, reactions, balance);
    FlattenChunk(u);
    solution := FeaSolution(Chunk(u), reactions, energies, total, maximum, balance);
    ReportsHold(sqrt, model, u, constrained, solution);
  }

  lemma ReactionsAreResidual(residual: Vector, constrained: map<nat, real>, reactions: seq<Vec3>)
    requires 3 * |reactions| == |residual|
    requires forall d :: 0 <= d < |residual| ==> Flatten(reactions)[d] == if d in constrained then residual[d] else 0.0
    requires forall d :: 0 <= d < |residual| && d !in constrained ==> residual[d] == 0.0
    ensures Flatten(reactions) == residual
  {
    hide Flatten;
    assert |Flatten(reactions)| == |residual|;
  }

  lemma BalanceVanishes(sqrt: real -> real, model: FeaModel, u: Vector, reactions: seq<Vec3>, balance: Vec3)
    requires AllReady(sqrt, model) && LoadsFit(model) && |u| == 3 * |model.nodes|
    requires Flatten(reactions) == Residual(Stiffness(sqrt, model), Forces(sqrt, model), u)
    requires var f := Forces(sqrt, model);
             balance == Add(Vec3(AxisSum(f, 0, |f|), AxisSum(f, 1, |f|), AxisSum(f, 2, |f|)), SumTo(reactions, |reactions|))
    ensures balance == Vec3(0.0, 0.0, 0.0)
  {
    hide AllReady, LoadsFit, Stiffness, Forces, Residual, Balanced, AxisSum, Flatten;
    var f, r := Forces(sqrt, model), Flatten(reactions);
    ResidualBalanced(sqrt, model, u);
    SumIsAxisSums(reactions, |reactions|);
    var zero := Vec3(0.0, 0.0, 0.0);
    BalancedSums(model.nodes, f, r, Mat3(zero, zero, zero), 0);
    BalancedSums(model.nodes, f, r, Mat3(zero, zero, zero), 1);
    BalancedSums(model.nodes, f, r, Mat3(zero, zero, zero), 2);
  }

  lemma LoadsWork(sqrt: real -> real, model: FeaModel, u: Vector)
    requires LoadsFit(model) && |u| == 3 * |model.nodes|
    ensures Dot(u, Forces(sqrt, model)) == WorkTo(sqrt, model, |model.loads|, u)
  {
    hide LoadsFit, WorkTo;
    ForcesToWork(sqrt, model, |model.loads|, u);
    DotRangeCommutes(u, Forces(sqrt, model), 0, |u|);
  }

  lemma ReportsHold(sqrt: real -> real, model: FeaModel, u: Vector, constrained: map<nat, real>, solution: FeaSolution)
    requires AllReady(sqrt, model) && AllPhysical(sqrt, model) && LoadsFit(model)
    requires Collects(model.constraints, constrained)
    requires SolvesConstrained(Stiffness(sqrt, model), Forces(sqrt, model), constrained, u)
    requires Flatten(solution.displacements) == u
    requires Flatten(solution.reactions) == Residual(Stiffness(sqrt, model), Forces(sqrt, model), u)
    requires |solution.elementEnergies| == |model.elements|
    requires forall e :: 0 <= e < |model.elements| ==> solution.elementEnergies[e] == PieceEnergy(PieceAt(sqrt, model, e), u)
    requires solution.totalEnergy == EnergyTo(sqrt, model, |model.elements|, u)
    requires solution.maximumFreeResidual == 0.0 && solution.forceBalance == Vec3(0.0, 0.0, 0.0)
    ensures Reports(sqrt, model, solution)
  {
    hide Form, Dot, Stiffness, Forces, AllReady, LoadsFit, AllPhysical, PieceEnergy, PieceAt, Balanced, EnergyTo, Free, Collects, Flatten;
    var k, f, r := Stiffness(sqrt, model), Forces(sqrt, model), Flatten(solution.reactions);
    FreeResidual(k, f, u, constrained);
    ResidualBalanced(sqrt, model, u);
    EnergyIsForm(sqrt, model, u);
    EnergyToNonNegative(sqrt, model, |model.elements|, u);
    ResidualWork(k, f, u, u);
    LoadsWork(sqrt, model, u);
    forall e | 0 <= e < |model.elements|
      ensures solution.elementEnergies[e] >= 0.0
    {
      PieceEnergyNonNegative(sqrt, model, e, u);
    }
    forall dof | 0 <= dof < |f| && Free(model, dof)
      ensures r[dof] == 0.0
    {
      FreeExactly(model, constrained, dof);
    }
  }

  lemma PieceEnergyNonNegative(sqrt: real -> real, model: FeaModel, e: nat, u: Vector)
    requires AllReady(sqrt, model) && AllPhysical(sqrt, model) && e < |model.elements| && |u| == 3 * |model.nodes|
    ensures PieceEnergy(PieceAt(sqrt, model, e), u) >= 0.0
  {
    hide PieceAt, PartEnergy;
    var piece := PieceAt(sqrt, model, e);
    PartEnergyNonNegative(piece.part, Gather(u, piece.index));
  }

  /** The system that the elimination of prescribed degrees of freedom leaves. */
  ghost function ConstrainedSystem(sqrt: real -> real, model: FeaModel, scale: real): (s: System)
    requires AllReady(sqrt, model) && LoadsFit(model)
    ensures IsMatrix(s.m, 3 * |model.nodes|, 3 * |model.nodes|) && |s.b| == 3 * |model.nodes|
  {
    Constrained(Stiffness(sqrt, model), Forces(sqrt, model), Collected(model.constraints), scale, 3 * |model.nodes|)
  }

  /** Elimination of that very system meets a column without a usable pivot. */
  ghost predicate Unsolvable(sqrt: real -> real, model: FeaModel, tolerance: real)
    requires AllReady(sqrt, model) && LoadsFit(model)
  {
    exists scale :: IsScale(Stiffness(sqrt, model), scale)
                    && NoUsablePivot(ConstrainedSystem(sqrt, model, scale).m, ConstrainedSystem(sqrt, model, scale).b, tolerance)
  }

  lemma UnsolvableAt(sqrt: real -> real, model: FeaModel, tolerance: real, scale: real)
    requires AllReady(sqrt, model) && LoadsFit(model) && IsScale(Stiffness(sqrt, model), scale)
    ensures Unsolvable(sqrt, model, tolerance)
       <==> NoUsablePivot(ConstrainedSystem(sqrt, model, scale).m, ConstrainedSystem(sqrt, model, scale).b, tolerance)
  {
    hide AllReady, LoadsFit, Stiffness, ConstrainedSystem, NoUsablePivot, IsScale;
    forall t | IsScale(Stiffness(sqrt, model), t)
      ensures t == scale
    {
      ScaleUnique(Stiffness(sqrt, model), t, scale);
    }
  }

  /** A motion that the constraints allow and that meets at most the pivot
      threshold at every free degree of freedom. */
  ghost predicate Loose(sqrt: real -> real, model: FeaModel, tolerance: real)
    requires AllReady(sqrt, model)
  {
    exists scale :: IsScale(Stiffness(sqrt, model), scale)
                    && HasMechanism(Stiffness(sqrt, model), 3 * |model.nodes|, Collected(model.constraints), Threshold(scale, tolerance))
  }

  /** An unconstrained motion without any resistance is always refused, and
      whatever is refused has one with almost none. */
  lemma UnsolvableIsLoose(sqrt: real -> real, model: FeaModel, tolerance: real, scale: real, d: nat)
    requires AllReady(sqrt, model) && LoadsFit(model) && 0.0 <= tolerance < 1.0
    requires IsScale(Stiffness(sqrt, model), scale) && d < 3 * |model.nodes| && d in Collected(model.constraints)
    ensures Unsolvable(sqrt, model, tolerance) ==> Loose(sqrt, model, tolerance)
    ensures HasMechanism(Stiffness(sqrt, model), 3 * |model.nodes|, Collected(model.constraints), 0.0) ==> Unsolvable(sqrt, model, tolerance)
  {
    hide AllReady, LoadsFit, Stiffness, Forces, NoUsablePivot, IsScale, HasMechanism, Collected, Constrained, Unsolvable;
    UnsolvableAt(sqrt, model, tolerance, scale);
    var (k, f, p) := (Stiffness(sqrt, model), Forces(sqrt, model), Collected(model.constraints));
    if Unsolvable(sqrt, model, tolerance) {
      RefusalIsMechanism(k, f, p, scale, tolerance, d);
    }
    if HasMechanism(k, 3 * |model.nodes|, p, 0.0) {
      MechanismIsRefused(k, f, p, scale, tolerance, d);
    }
  }

  /** `u` has strictly less potential energy than every other displacement
      with the prescribed values. */
  ghost predicate MinimisesPotential(sqrt: real -> real, model: FeaModel, u: Vector)
    requires AllReady(sqrt, model) && LoadsFit(model)
  {
    && |u| == 3 * |model.nodes|
    && forall v :: Admissible(|u|, Collected(model.constraints), v) && v != u ==>
                     Potential(Stiffness(sqrt, model), Forces(sqrt, model), u) < Potential(Stiffness(sqrt, model), Forces(sqrt, model), v)
  }

  lemma StiffnessForms(sqrt: real -> real, model: FeaModel)
    requires AllReady(sqrt, model) && AllPhysical(sqrt, model)
    ensures SymmetricForm(Stiffness(sqrt, model), 3 * |model.nodes|)
    ensures Semidefinite(Stiffness(sqrt, model), 3 * |model.nodes|)
  {
    hide Form, AllReady, AllPhysical, Stiffness;
    var n := 3 * |model.nodes|;
    forall v, u | |v| == n && |u| == n
      ensures Form(Stiffness(sqrt, model), v, u) == Form(Stiffness(sqrt, model), u, v)
    {
      StiffnessFormSymmetric(sqrt, model, v, u);
    }
    forall v | |v| == n
      ensures Form(Stiffness(sqrt, model), v, v) >= 0.0
    {
      StiffnessSemidefinite(sqrt, model, v);
    }
  }

  lemma SolutionMinimises(sqrt: real -> real, model: FeaModel, u: Vector)
    requires AllReady(sqrt, model) && AllPhysical(sqrt, model) && LoadsFit(model)
    requires SolvesConstrained(Stiffness(sqrt, model), Forces(sqrt, model), Collected(model.constraints), u)
    requires forall y :: SolvesConstrained(Stiffness(sqrt, model), Forces(sqrt, model), Collected(model.constraints), y) ==> y == u
    ensures MinimisesPotential(sqrt, model, u)
  {
    StiffnessForms(sqrt, model);
    SolvesLength(Stiffness(sqrt, model), Forces(sqrt, model), Collected(model.constraints), u);
    hide AllReady, AllPhysical, LoadsFit, Stiffness, Forces, SolvesConstrained, Collected, Potential, SymmetricForm, Semidefinite, Admissible;
    forall v | Admissible(|u|, Collected(model.constraints), v) && v != u
      ensures Potential(Stiffness(sqrt, model), Forces(sqrt, model), u) < Potential(Stiffness(sqrt, model), Forces(sqrt, model), v)
    {
      LeastPotential(Stiffness(sqrt, model), Forces(sqrt, model), Collected(model.constraints), u, v);
    }
  }

  lemma SolvesLength(k: Matrix, f: Vector, prescribed: map<nat, real>, u: Vector)
    requires IsMatrix(k, |f|, |f|) && SolvesConstrained(k, f, prescribed, u)
    ensures |u| == |f|
  {
  }

  // ---------------------------------------------------------------- solve

  /** The evidence for every outcome after validation. */
  ghost predicate Decided(sqrt: real -> real, model: FeaModel, tolerance: real, r: Result<FeaSolution, FeaError>)
    requires AllReady(sqrt, model) && LoadsFit(model)
  {
    && (r.Ok? <==> !Unsolvable(sqrt, model, tolerance))
    && (r.Err? ==> r.error == SingularSystem && Loose(sqrt, model, tolerance))
    && (r.Ok? ==> !HasMechanism(Stiffness(sqrt, model), 3 * |model.nodes|, Collected(model.constraints), 0.0))
    && (r.Ok? ==>
          var u := Flatten(r.value.displacements);
          && Satisfies(sqrt, model, u)
          && (forall y :: Satisfies(sqrt, model, y) ==> y == u)
          && MinimisesPotential(sqrt, model, u)
          && Reports(sqrt, model, r.value))
  }

  /** Whenever the solve succeeds the reported displacement is the one and only
      solution of the constrained problem over the original system and the
      strict minimiser of potential energy, residuals at free degrees of freedom
      and the force balance are exactly zero, and the energy is half the work of
      loads and reactions. A model is refused exactly for a defect, or because
      elimination of its constrained system meets a column without a usable
      pivot; then some motion that the constraints allow meets almost no
      resistance. */
  method SolveModel(sqrt: real -> real, model: FeaModel, settings: Settings) returns (r: Result<FeaSolution, FeaError>)
    ensures ValidModel(sqrt, model, settings) && PoleFree(model) ==>
              AllReady(sqrt, model) && LoadsFit(model) && Decided(sqrt, model, settings.relativePivotTolerance, r)
    ensures !ValidModel(sqrt, model, settings) ==> r.Err? && r.error != SingularSystem && Defect(sqrt, model, settings, r.error)
  {
    hide AllReady, LoadsFit, AllPhysical, Defect, Decided, PoleFree;
    var error := Validate(sqrt, model, settings);
    if error.Some? {
      return Err(error.value);
    }
    if !PoleFree(model) {
      // The stiffness has no value over the reals, so any result is possible.
      r := *;
      return;
    }
    ValidModelReady(sqrt, model, settings);
    r := SolveValid(sqrt, model, settings);
  }

  /** The solve of an accepted model. */
  method SolveValid(sqrt: real -> real, model: FeaModel, settings: Settings) returns (r: Result<FeaSolution, FeaError>)
    requires ValidModel(sqrt, model, settings) && AllReady(sqrt, model) && AllPhysical(sqrt, model) && LoadsFit(model)
    ensures Decided(sqrt, model, settings.relativePivotTolerance, r)
  {
    hide Stiffness, Forces, AllReady, LoadsFit, AllPhysical, Reports, Satisfies, Solves, SolvesConstrained, Collects, NoUsablePivot, Collected,
         Constrained, IsScale, NearlySingular, Singular, Unsolvable, Loose, HasMechanism, MinimisesPotential, Threshold, ConstrainedSystem, ValidKind;
    var tolerance := settings.relativePivotTolerance;
    var n := 3 * |model.nodes|;
    var stiffness := new Vector[n](_ => seq(n, _ => 0.0));
    var forces := new real[n](_ => 0.0);
    assert stiffness[..] == ZeroMatrix(n);
    AssembleStiffness(sqrt, model, stiffness);
    AssembleLoads(sqrt, model, forces);
    var originalStiffness, originalForces := stiffness[..], forces[..];
    ghost var scale := ScaleOf(originalStiffness);
    NodesInRange(model);
    SomeConstrained(model);
    var constrained := ApplyConstraints(stiffness, forces, model.constraints);
    if constrained.Err? {
      assert false;
    }
    ghost var dof := SomePrescribed(model, constrained.value, n);
    SystemLeft(sqrt, model, scale, System(stiffness[..], forces[..]));
    UnsolvableAt(sqrt, model, tolerance, scale);
    UnsolvableIsLoose(sqrt, model, tolerance, scale, dof);
    ghost var k, f := stiffness[..], forces[..];
    forall u
      ensures Solves(k, f, u) <==> Satisfies(sqrt, model, u)
    {
      SatisfiesExactly(sqrt, model, constrained.value, u);
    }
    var displacement := SolveDense(stiffness, forces, tolerance);
    if displacement.Err? {
      r := Err(displacement.error);
      assert Decided(sqrt, model, tolerance, r);
      return;
    }
    var u := displacement.value;
    assert SolvesConstrained(originalStiffness, originalForces, constrained.value, u);
    var solution := PostProcess(sqrt, model, originalStiffness, originalForces, u, constrained.value);
    SolutionMinimises(sqrt, model, u);
    r := Ok(solution);
  }

  /** The scale of a matrix. */
  ghost function ScaleOf(m: Matrix): (scale: real)
    ensures IsScale(m, scale)
  {
    ScaleExists(m);
    var scale :| IsScale(m, scale);
    scale
  }

  lemma SystemLeft(sqrt: real -> real, model: FeaModel, scale: real, s: System)
    requires AllReady(sqrt, model) && LoadsFit(model)
    requires s == Constrained(Stiffness(sqrt, model), Forces(sqrt, model), Collected(model.constraints), scale, 3 * |model.nodes|)
    ensures s == ConstrainedSystem(sqrt, model, scale)
  {
    hide AllReady, LoadsFit, Stiffness, Forces, Constrained, Collected;
  }

  lemma SomePrescribed(model: FeaModel, prescribed: map<nat, real>, n: nat) returns (dof: nat)
    requires Collects(model.constraints, prescribed) && !(forall i :: 0 <= i < |model.constraints| ==> Unconstrained(model.constraints[i]))
    requires forall d :: d in prescribed ==> d < n
    ensures dof < n && dof in prescribed
  {
    EmptyExactly(model.constraints, prescribed);
    dof :| dof in prescribed;
  }

  lemma NodesInRange(model: FeaModel)
    requires ConstraintsValid(model)
    ensures forall i :: 0 <= i < |model.constraints| ==> model.constraints[i].node * 3 + 2 < 3 * |model.nodes|
  {
  }

  lemma SomeConstrained(model: FeaModel)
    requires ConstraintsValid(model)
    ensures !(forall i :: 0 <= i < |model.constraints| ==> Unconstrained(model.constraints[i]))
  {
    assert !Unconstrained(model.constraints[0]);
  }
}
