/** The finite-element model, its settings, results and errors. Numbers are
    reals, so every value is finite. */
module FeaTypes {
  import opened Results
  import opened Linalg

  const MAX_FEA_MATERIALS: nat := 4096
  const MAX_FEA_ELEMENTS: nat := 4096
  const MAX_FEA_CONSTRAINTS: nat := 768
  const MAX_FEA_LOADS: nat := 16384
  const FEA_MODEL_SCHEMA_V1: string := "ketchup.fea-model.v1"

  datatype Material = Material(id: nat, young: real, poisson: real, yieldStrength: Option<real>)

  datatype ElementKind =
    | LinearTruss2(a: nat, b: nat, materialId: nat, area: real)
    | LinearTetrahedron4(a: nat, b: nat, c: nat, d: nat, materialId: nat)
  {
    function Nodes(): (r: seq<nat>)
      ensures |r| == if LinearTruss2? then 2 else 4
    {
      if LinearTruss2? then [a, b] else [a, b, c, d]
    }

    predicate InRange(count: nat) {
      a < count && b < count && (LinearTetrahedron4? ==> c < count && d < count)
    }
  }

  datatype Element = Element(id: nat, kind: ElementKind)

  datatype Constraint = Constraint(node: nat, x: Option<real>, y: Option<real>, z: Option<real>) {
    function Axis(axis: nat): Option<real>
      requires axis < 3
    {
      if axis == 0 then x else if axis == 1 then y else z
    }
  }

  datatype Load =
    | NodalForce(node: nat, force: Vec3)
    | SurfaceTraction(a: nat, b: nat, c: nat, traction: Vec3)

  datatype FeaModel = FeaModel(
    schema: string,
    caseId: string,
    nodes: seq<Vec3>,
    materials: seq<Material>,
    elements: seq<Element>,
    constraints: seq<Constraint>,
    loads: seq<Load>)

  datatype Settings = Settings(
    maximumNodes: nat,
    relativePivotTolerance: real,
    maximumSmallDeformationRatio: real,
    convergenceRelativeTolerance: real)

  datatype FeaError =
    | UnsupportedSchema
    | EmptyCaseId
    | EmptyMesh
    | ModelTooLarge
    | InvalidNode
    | DuplicateMaterialId
    | InvalidMaterial
    | DuplicateElementId(element: nat)
    | DuplicateElement(element: nat)
    | InvalidElementNode(element: nat)
    | RepeatedElementNode(element: nat)
    | DegenerateElement(element: nat)
    | MissingMaterial(element: nat)
    | InvalidArea(element: nat)
    | MissingConstraint
    | InvalidConstraint
    | ConflictingConstraint
    | MissingLoad
    | InvalidLoad
    | NonBoundaryTraction
    | InvalidSettings
    | SingularSystem
}
