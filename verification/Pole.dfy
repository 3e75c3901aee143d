/** A model that validation accepts and whose elasticity divides by zero. */
module Pole {
  import opened Results
  import opened Linalg
  import opened FeaTypes
  import opened Elements
  import opened Assembly
  import opened Validation
  import opened Solve

  /** One tetrahedron of a material with Poisson's ratio -1, held at a node and
      pulled at another. */
  function PoleModel(): FeaModel {
    FeaModel(
      FEA_MODEL_SCHEMA_V1,
      "c",
      [Vec3(0.0, 0.0, 0.0), Vec3(1.0, 0.0, 0.0), Vec3(0.0, 1.0, 0.0), Vec3(0.0, 0.0, 1.0)],
      [Material(1, 1.0, -1.0, None)],
      [Element(1, LinearTetrahedron4(0, 1, 2, 3, 1))],
      [Constraint(0, Some(0.0), None, None)],
      [NodalForce(1, Vec3(1.0, 0.0, 0.0))])
  }

  function PoleSettings(): Settings {
    Settings(4, 0.5, 0.5, 0.5)
  }

  /** The unit vectors as rows. */
  predicate IsIdentity(m: Mat3) {
    && m.r0.x == 1.0 && m.r0.y == 0.0 && m.r0.z == 0.0
    && m.r1.x == 0.0 && m.r1.y == 1.0 && m.r1.z == 0.0
    && m.r2.x == 0.0 && m.r2.y == 0.0 && m.r2.z == 1.0
  }

  lemma IdentityDeterminant(m: Mat3)
    requires IsIdentity(m)
    ensures Determinant(m) == 1.0
  {
    TripleExpanded(m.r0, m.r1, m.r2);
    hide Dot3, Cross;
  }

  lemma IdentityScale(m: Mat3)
    requires IsIdentity(m)
    ensures Linalg.MaxAbsEntry(m) == 1.0
  {
  }

  lemma RegularAtOne(m: Mat3)
    requires Determinant(m) == 1.0 && Linalg.MaxAbsEntry(m) == 1.0
    ensures !IsSingular(m)
  {
    hide Determinant, Linalg.MaxAbsEntry;
  }

  lemma RegularTetrahedron(a: Vec3, b: Vec3, c: Vec3, d: Vec3)
    requires !IsSingular(Jacobian(a, b, c, d))
    ensures TetGeometry(a, b, c, d).Some?
  {
    hide IsSingular, Jacobian, MulVec, Determinant, Cross;
  }

  lemma UnitJacobian(a: Vec3, b: Vec3, c: Vec3, d: Vec3)
    requires a == Vec3(0.0, 0.0, 0.0) && b == Vec3(1.0, 0.0, 0.0) && c == Vec3(0.0, 1.0, 0.0) && d == Vec3(0.0, 0.0, 1.0)
    ensures IsIdentity(Jacobian(a, b, c, d))
  {
  }

  lemma UnitTetrahedron(a: Vec3, b: Vec3, c: Vec3, d: Vec3)
    requires a == Vec3(0.0, 0.0, 0.0) && b == Vec3(1.0, 0.0, 0.0) && c == Vec3(0.0, 1.0, 0.0) && d == Vec3(0.0, 0.0, 1.0)
    ensures TetGeometry(a, b, c, d).Some?
  {
    hide IsSingular, TetGeometry, Jacobian, IsIdentity, Determinant, Linalg.MaxAbsEntry;
    var j := Jacobian(a, b, c, d);
    UnitJacobian(a, b, c, d);
    IdentityDeterminant(j);
    IdentityScale(j);
    RegularAtOne(j);
    RegularTetrahedron(a, b, c, d);
  }

  lemma PoleElements(sqrt: real -> real)
    ensures ElementsValid(sqrt, PoleModel(), 1)
  {
    var model := PoleModel();
    hide TetGeometry;
    UnitTetrahedron(model.nodes[0], model.nodes[1], model.nodes[2], model.nodes[3]);
    assert model.materials[0].id == 1;
    assert HasMaterial(model.materials, 1);
  }

  lemma PoleConstraints()
    ensures ConstraintsValid(PoleModel())
  {
    assert |PoleModel().constraints| == 1;
  }

  /** The validator lets a tetrahedron through whose elasticity has no value:
      the stiffness of an accepted model may not exist. */
  lemma AcceptedAtThePole(sqrt: real -> real)
    ensures ValidModel(sqrt, PoleModel(), PoleSettings())
    ensures !PoleFree(PoleModel()) && !AllReady(sqrt, PoleModel())
  {
    var model := PoleModel();
    PoleElements(sqrt);
    PoleConstraints();
    hide ElementsValid, ConstraintsValid, TetGeometry, Resolve;
    assert model.caseId == "c" && !IsWhite(model.caseId[0]);
    assert model.elements[0].kind.LinearTetrahedron4? && model.materials[0].id == model.elements[0].kind.materialId;
    assert model.materials[0].poisson == -1.0;
    ReadyExactly(sqrt, model, PoleSettings());
  }
}
