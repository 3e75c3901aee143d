/** Scatter-add of the element stiffnesses and of the loads, and what the
    assembled system keeps from its elements: symmetry, energy and the rigid
    motions. */
module Assembly {
  import opened Results
  import opened RealVectors
  import opened Linalg
  import opened LinearForms
  import opened FeaTypes
  import opened Elements

  // ---------------------------------------------------------------- elements of a model

  /** The first material with the id. */
  function FindMaterial(materials: seq<Material>, id: nat): Option<Material> {
    if |materials| == 0 then None
    else if materials[0].id == id then Some(materials[0])
    else FindMaterial(materials[1..], id)
  }

  /** Global degrees of freedom of the local ones. */
  function Index(nodes: seq<nat>): (index: seq<nat>)
    ensures |index| == 3 * |nodes|
  {
    seq(3 * |nodes|, l requires 0 <= l < 3 * |nodes| => nodes[l / 3] * 3 + l % 3)
  }

  lemma IndexInRange(nodes: seq<nat>, count: nat)
    requires forall k :: 0 <= k < |nodes| ==> nodes[k] < count
    ensures IsIndex(Index(nodes), 3 * count)
  {
  }

  /** An element with its geometry and material looked up. */
  datatype Part =
    | Bar(truss: TrussShape, young: real, area: real)
    | Solid(tet: TetShape, lame: real, shear: real)
  {
    predicate Sound() {
      Bar? ==> truss.length > 0.0
    }

    function Dofs(): nat {
      if Bar? then 6 else 12
    }
  }

  /** The parts of the element that the kernel uses, when the nodes and the
      material exist, the geometry is not degenerate and the elasticity is defined. */
  function Resolve(sqrt: real -> real, model: FeaModel, kind: ElementKind): (r: Option<Part>)
    ensures r.Some? ==> r.value.Sound() && r.value.Dofs() == 3 * |kind.Nodes()| && kind.InRange(|model.nodes|)
  {
    if !kind.InRange(|model.nodes|) || FindMaterial(model.materials, kind.materialId).None? then None
    else
      var material := FindMaterial(model.materials, kind.materialId).value;
      match kind
      case LinearTruss2(a, b, _, area) =>
        (match TrussGeometry(sqrt, model.nodes[a], model.nodes[b])
         case None => None
         case Some(shape) => Some(Bar(shape, material.young, area)))
      case LinearTetrahedron4(a, b, c, d, _) =>
        (match TetGeometry(model.nodes[a], model.nodes[b], model.nodes[c], model.nodes[d])
         case None => None
         case Some(shape) =>
           if ElasticityDefined(material.poisson)
           then Some(Solid(shape, Lambda(material.young, material.poisson), Shear(material.young, material.poisson)))
           else None)
  }

  function TetMatrix(shape: TetShape, d: Matrix): (m: Matrix)
    requires IsMatrix(d, 6, 6)
    ensures IsMatrix(m, 12, 12)
  {
    var b := StrainDisplacement(shape);
    seq(12, i requires 0 <= i < 12 =>
      seq(12, j requires 0 <= j < 12 => Form(d, Column(b, 12, i), Column(b, 12, j)) * shape.volume))
  }

  lemma TetIsCongruent(shape: TetShape, d: Matrix)
    requires IsMatrix(d, 6, 6)
    ensures Congruent(TetMatrix(shape, d), shape.volume, d, StrainDisplacement(shape), 12)
  {
    hide Form;
  }

  function LocalMatrix(part: Part): (m: Matrix)
    requires part.Sound()
    ensures IsMatrix(m, part.Dofs(), part.Dofs())
  {
    match part
    case Bar(shape, young, area) => TrussMatrix(shape, AxialFactor(young, area, shape.length))
    case Solid(shape, lame, shear) => TetMatrix(shape, ElasticityMatrix(lame, shear))
  }

  /** Strain energy of one element under its local displacements. */
  function PartEnergy(part: Part, w: Vector): real
    requires part.Sound() && |w| == part.Dofs()
  {
    match part
    case Bar(shape, young, area) => TrussEnergy(shape, young, area, w)
    case Solid(shape, lame, shear) =>
      var strain := Apply(StrainDisplacement(shape), w);
      var stress := Apply(ElasticityMatrix(lame, shear), strain);
      0.5 * shape.volume * Dot(strain, stress)
  }

  lemma SolidForm(part: Part, v: Vector, u: Vector)
    requires part.Solid? && |v| == |u| == 12
    ensures Form(LocalMatrix(part), v, u)
         == part.tet.volume * Form(ElasticityMatrix(part.lame, part.shear),
                                   Apply(StrainDisplacement(part.tet), v), Apply(StrainDisplacement(part.tet), u))
  {
    hide Form, StrainDisplacement, ElasticityMatrix, TetMatrix, Congruent;
    var e := ElasticityMatrix(part.lame, part.shear);
    TetIsCongruent(part.tet, e);
    CongruentForm(TetMatrix(part.tet, e), part.tet.volume, e, StrainDisplacement(part.tet), v, u);
  }

  lemma BarForm(part: Part, v: Vector, u: Vector)
    requires part.Bar? && part.Sound() && |v| == |u| == 6
    ensures Form(LocalMatrix(part), v, u)
         == AxialFactor(part.young, part.area, part.truss.length) * Dot(TrussCosines(part.truss), v) * Dot(TrussCosines(part.truss), u)
  {
    hide Form, Dot, TrussMatrix, TrussCosines, RankOne, AxialFactor;
    var factor := AxialFactor(part.young, part.area, part.truss.length);
    TrussIsRankOne(part.truss, factor);
    RankOneForm(TrussMatrix(part.truss, factor), factor, TrussCosines(part.truss), v, u);
  }

  lemma SolidEnergy(part: Part, w: Vector)
    requires part.Solid? && |w| == 12
    ensures var strain := Apply(StrainDisplacement(part.tet), w);
            PartEnergy(part, w) == 0.5 * part.tet.volume * Form(ElasticityMatrix(part.lame, part.shear), strain, strain)
  {
    hide Dot, StrainDisplacement, ElasticityMatrix;
  }

  /** Each reported element energy is half the form of that element's stiffness. */
  lemma PartEnergyIsForm(part: Part, w: Vector)
    requires part.Sound() && |w| == part.Dofs()
    ensures PartEnergy(part, w) == 0.5 * Form(LocalMatrix(part), w, w)
  {
    match part {
      case Bar(shape, young, area) =>
        hide Form, TrussEnergy, TrussMatrix, AxialFactor;
        TrussEnergyIsForm(shape, young, area, w);
      case Solid(shape, lame, shear) =>
        SolidEnergy(part, w);
        hide Form, Dot, PartEnergy;
        SolidForm(part, w, w);
        assert 0.5 * (shape.volume * Form(ElasticityMatrix(lame, shear), Apply(StrainDisplacement(shape), w), Apply(StrainDisplacement(shape), w)))
            == 0.5 * shape.volume * Form(ElasticityMatrix(lame, shear), Apply(StrainDisplacement(shape), w), Apply(StrainDisplacement(shape), w));
    }
  }

  /** The physical ranges under which energy cannot be negative. */
  predicate Physical(part: Part) {
    match part
    case Bar(shape, young, area) => shape.length > 0.0 && young >= 0.0 && area >= 0.0
    case Solid(shape, lame, shear) => shape.volume >= 0.0 && shear > 0.0 && 3.0 * lame + 2.0 * shear > 0.0
  }

  lemma PartEnergyNonNegative(part: Part, w: Vector)
    requires Physical(part) && |w| == part.Dofs()
    ensures PartEnergy(part, w) >= 0.0
  {
    match part {
      case Bar(shape, young, area) =>
        hide TrussEnergy;
        TrussEnergyNonNegative(shape, young, area, w);
      case Solid(shape, lame, shear) =>
        var strain := Apply(StrainDisplacement(shape), w);
        SolidEnergy(part, w);
        hide Form, Dot, PartEnergy, ElasticForm, ElasticityMatrix;
        ElasticFormIs(lame, shear, strain, strain);
        ElasticFormNonNegative(lame, shear, strain);
        ProductNonNegative(shape.volume, Form(ElasticityMatrix(lame, shear), strain, strain));
    }
  }

  /** Young's modulus, area and Poisson ratio in range make the part physical. */
  lemma ResolvedPhysical(sqrt: real -> real, model: FeaModel, kind: ElementKind)
    requires Resolve(sqrt, model, kind).Some?
    requires var material := FindMaterial(model.materials, kind.materialId).value;
             material.young > 0.0 && match kind
             case LinearTruss2(_, _, _, area) => area > 0.0
             case LinearTetrahedron4(_, _, _, _, _) => -1.0 < material.poisson < 0.5
    ensures Physical(Resolve(sqrt, model, kind).value)
  {
    if kind.LinearTetrahedron4? {
      var material := FindMaterial(model.materials, kind.materialId).value;
      ModuliPositive(material.young, material.poisson);
      hide Lambda, Shear, TrussGeometry;
    }
  }

  lemma PartSymmetric(part: Part, v: Vector, u: Vector)
    requires part.Sound() && |v| == |u| == part.Dofs()
    ensures Form(LocalMatrix(part), v, u) == Form(LocalMatrix(part), u, v)
  {
    hide Form;
    match part {
      case Bar(shape, young, area) =>
        BarForm(part, v, u);
        BarForm(part, u, v);
        Exchange(AxialFactor(young, area, shape.length), Dot(TrussCosines(shape), v), Dot(TrussCosines(shape), u));
      case Solid(shape, lame, shear) =>
        SolidForm(part, v, u);
        SolidForm(part, u, v);
        ElasticFormSymmetric(lame, shear, Apply(StrainDisplacement(shape), v), Apply(StrainDisplacement(shape), u));
    }
  }

  lemma Exchange(f: real, x: real, y: real)
    ensures f * x * y == f * y * x
  {
  }

  // ---------------------------------------------------------------- rigid motions

  /** Displacement gradients of infinitesimal rotations. */
  predicate Skew(h: Mat3) {
    && h.r0.x == 0.0 && h.r1.y == 0.0 && h.r2.z == 0.0
    && h.r0.y == -h.r1.x && h.r1.z == -h.r2.y && h.r0.z == -h.r2.x
  }

  /** Nodal displacements of the field p -> h p + t, one degree of freedom after another. */
  function AffineVector(nodes: seq<Vec3>, h: Mat3, t: Vec3): (u: Vector)
    ensures |u| == 3 * |nodes|
  {
    seq(3 * |nodes|, d requires 0 <= d < 3 * |nodes| => AffineDisplacement(h, t, nodes[d / 3]).Axis(d % 3))
  }

  lemma SkewProjection(h: Mat3, v: Vec3)
    requires Skew(h)
    ensures v.x * Dot3(h.r0, v) + v.y * Dot3(h.r1, v) + v.z * Dot3(h.r2, v) == 0.0
  {
    var a, b, c := h.r0.y, h.r1.z, h.r0.z;
    assert Dot3(h.r0, v) == a * v.y + c * v.z;
    assert Dot3(h.r1, v) == -a * v.x + b * v.z;
    assert Dot3(h.r2, v) == -c * v.x - b * v.y;
    SkewScalars(a, b, c, v.x, v.y, v.z);
  }

  lemma SkewScalars(a: real, b: real, c: real, x: real, y: real, z: real)
    ensures x * (a * y + c * z) + y * (-a * x + b * z) + z * (-c * x - b * y) == 0.0
  {
  }

  /** A rigid motion does not stretch a truss. */
  lemma TrussRigid(sqrt: real -> real, p0: Vec3, p1: Vec3, h: Mat3, t: Vec3)
    requires TrussGeometry(sqrt, p0, p1).Some? && Skew(h)
    ensures var (d0, d1) := (AffineDisplacement(h, t, p0), AffineDisplacement(h, t, p1));
            Dot(TrussCosines(TrussGeometry(sqrt, p0, p1).value), [d0.x, d0.y, d0.z, d1.x, d1.y, d1.z]) == 0.0
  {
    var shape := TrussGeometry(sqrt, p0, p1).value;
    var d0, d1 := AffineDisplacement(h, t, p0), AffineDisplacement(h, t, p1);
    var delta, f := Sub(p1, p0), 1.0 / shape.length;
    Dot6(TrussCosines(shape), [d0.x, d0.y, d0.z, d1.x, d1.y, d1.z]);
    AffineDifference(h.r0, t.x, p0, p1);
    AffineDifference(h.r1, t.y, p0, p1);
    AffineDifference(h.r2, t.z, p0, p1);
    SkewProjection(h, delta);
    ScaleComponents(delta, f);
    hide Dot, Dot3, Scale, AffineField, Length, Sub, Skew;
    TrussRigidScalars(f, delta.x, delta.y, delta.z, Dot3(h.r0, delta), Dot3(h.r1, delta), Dot3(h.r2, delta), d0, d1, shape.direction);
  }

  lemma TrussRigidScalars(f: real, x: real, y: real, z: real, p: real, q: real, r: real, d0: Vec3, d1: Vec3, dir: Vec3)
    requires x * p + y * q + z * r == 0.0
    requires d1.x - d0.x == p && d1.y - d0.y == q && d1.z - d0.z == r
    requires dir == Vec3(x * f, y * f, z * f)
    ensures -dir.x * d0.x + -dir.y * d0.y + -dir.z * d0.z + dir.x * d1.x + dir.y * d1.y + dir.z * d1.z == 0.0
  {
    assert dir.x * (d1.x - d0.x) == f * (x * p);
    assert dir.y * (d1.y - d0.y) == f * (y * q);
    assert dir.z * (d1.z - d0.z) == f * (z * r);
    assert f * (x * p + y * q + z * r) == 0.0;
  }

  /** The nodal displacements of a rigid motion, seen from one element. */
  function RigidLocal(model: FeaModel, kind: ElementKind, h: Mat3, t: Vec3): (w: Vector)
    requires kind.InRange(|model.nodes|)
    ensures |w| == 3 * |kind.Nodes()|
  {
    IndexInRange(kind.Nodes(), |model.nodes|);
    Gather(AffineVector(model.nodes, h, t), Index(kind.Nodes()))
  }

  lemma RigidLocalTruss(model: FeaModel, kind: ElementKind, h: Mat3, t: Vec3)
    requires kind.InRange(|model.nodes|) && kind.LinearTruss2?
    ensures var (d0, d1) := (AffineDisplacement(h, t, model.nodes[kind.a]), AffineDisplacement(h, t, model.nodes[kind.b]));
            RigidLocal(model, kind, h, t) == [d0.x, d0.y, d0.z, d1.x, d1.y, d1.z]
  {
    hide AffineDisplacement;
    var w, index := RigidLocal(model, kind, h, t), Index(kind.Nodes());
    assert forall l :: 0 <= l < 6 ==> index[l] / 3 == kind.Nodes()[l / 3] && index[l] % 3 == l % 3;
    assert w[0] == AffineDisplacement(h, t, model.nodes[kind.a]).x;
  }

  lemma RigidLocalTet(model: FeaModel, kind: ElementKind, h: Mat3, t: Vec3)
    requires kind.InRange(|model.nodes|) && kind.LinearTetrahedron4?
    ensures RigidLocal(model, kind, h, t)
         == TetDisplacement(AffineDisplacement(h, t, model.nodes[kind.a]), AffineDisplacement(h, t, model.nodes[kind.b]),
                            AffineDisplacement(h, t, model.nodes[kind.c]), AffineDisplacement(h, t, model.nodes[kind.d]))
  {
    hide AffineDisplacement;
    var w, index := RigidLocal(model, kind, h, t), Index(kind.Nodes());
    assert forall l :: 0 <= l < 12 ==> index[l] / 3 == kind.Nodes()[l / 3] && index[l] % 3 == l % 3;
  }

  /** An element resists no rigid motion. */
  lemma PartRigid(sqrt: real -> real, model: FeaModel, kind: ElementKind, h: Mat3, t: Vec3, u: Vector)
    requires Resolve(sqrt, model, kind).Some? && Skew(h) && |u| == 3 * |kind.Nodes()|
    ensures Form(LocalMatrix(Resolve(sqrt, model, kind).value), RigidLocal(model, kind, h, t), u) == 0.0
  {
    hide Form, AffineDisplacement, TetGeometry, TrussGeometry, RigidLocal;
    var part, rigid := Resolve(sqrt, model, kind).value, RigidLocal(model, kind, h, t);
    match kind {
      case LinearTruss2(a, b, _, _) =>
        RigidLocalTruss(model, kind, h, t);
        TrussRigid(sqrt, model.nodes[a], model.nodes[b], h, t);
        BarForm(part, rigid, u);
      case LinearTetrahedron4(a, b, c, d, _) =>
        RigidLocalTet(model, kind, h, t);
        PatchStrain(model.nodes[a], model.nodes[b], model.nodes[c], model.nodes[d], h, t);
        SolidForm(part, rigid, u);
        assert forall k :: 0 <= k < 6 ==> StrainOf(h)[k] == 0.0;
        ZeroFormLeft(ElasticityMatrix(part.lame, part.shear), StrainOf(h), Apply(StrainDisplacement(part.tet), u));
    }
  }

  // ---------------------------------------------------------------- global stiffness

  ghost predicate AllReady(sqrt: real -> real, model: FeaModel) {
    forall e :: 0 <= e < |model.elements| ==> Resolve(sqrt, model, model.elements[e].kind).Some?
  }

  /** Degrees of freedom and part of one element. */
  datatype Piece = Piece(index: seq<nat>, part: Part)

  predicate PieceFits(piece: Piece, n: nat) {
    IsIndex(piece.index, n) && piece.part.Sound() && |piece.index| == piece.part.Dofs()
  }

  function PieceAt(sqrt: real -> real, model: FeaModel, e: nat): (r: Piece)
    requires AllReady(sqrt, model) && e < |model.elements|
    ensures PieceFits(r, 3 * |model.nodes|)
  {
    var kind := model.elements[e].kind;
    assert Resolve(sqrt, model, kind).Some?;
    IndexInRange(kind.Nodes(), |model.nodes|);
    Piece(Index(kind.Nodes()), Resolve(sqrt, model, kind).value)
  }

  function AddPiece(k: Matrix, n: nat, piece: Piece): (r: Matrix)
    requires IsMatrix(k, n, n) && PieceFits(piece, n)
    ensures IsMatrix(r, n, n)
  {
    Scatter(k, n, piece.index, LocalMatrix(piece.part))
  }

  /** The stiffness after the first `count` elements. */
  function StiffnessTo(sqrt: real -> real, model: FeaModel, count: nat): (k: Matrix)
    requires AllReady(sqrt, model) && count <= |model.elements|
    ensures IsMatrix(k, 3 * |model.nodes|, 3 * |model.nodes|)
    decreases count
  {
    if count == 0 then ZeroMatrix(3 * |model.nodes|)
    else AddPiece(StiffnessTo(sqrt, model, count - 1), 3 * |model.nodes|, PieceAt(sqrt, model, count - 1))
  }

  function Stiffness(sqrt: real -> real, model: FeaModel): (k: Matrix)
    requires AllReady(sqrt, model)
    ensures IsMatrix(k, 3 * |model.nodes|, 3 * |model.nodes|)
  {
    StiffnessTo(sqrt, model, |model.elements|)
  }

  /** One element's contribution to the global form. */
  function PieceForm(piece: Piece, v: Vector, u: Vector): real
    requires |v| == |u| && PieceFits(piece, |v|)
  {
    Form(LocalMatrix(piece.part), Gather(v, piece.index), Gather(u, piece.index))
  }

  lemma AddPieceForm(k: Matrix, n: nat, piece: Piece, v: Vector, u: Vector)
    requires IsMatrix(k, n, n) && PieceFits(piece, n) && |v| == |u| == n
    ensures Form(AddPiece(k, n, piece), v, u) == Form(k, v, u) + PieceForm(piece, v, u)
  {
    ScatterForm(k, n, piece.index, LocalMatrix(piece.part), v, u);
  }

  lemma {:induction false} StiffnessToSymmetric(sqrt: real -> real, model: FeaModel, count: nat, v: Vector, u: Vector)
    requires AllReady(sqrt, model) && count <= |model.elements| && |v| == |u| == 3 * |model.nodes|
    ensures Form(StiffnessTo(sqrt, model, count), v, u) == Form(StiffnessTo(sqrt, model, count), u, v)
    decreases count
  {
    hide Form, AllReady, PieceAt, AddPiece;
    var n := 3 * |model.nodes|;
    if count == 0 {
      ZeroForm(n, v, u);
      ZeroForm(n, u, v);
    } else {
      var k, piece := StiffnessTo(sqrt, model, count - 1), PieceAt(sqrt, model, count - 1);
      StiffnessToSymmetric(sqrt, model, count - 1, v, u);
      AddPieceForm(k, n, piece, v, u);
      AddPieceForm(k, n, piece, u, v);
      PartSymmetric(piece.part, Gather(v, piece.index), Gather(u, piece.index));
    }
  }

  /** The assembled form is symmetric. */
  lemma StiffnessFormSymmetric(sqrt: real -> real, model: FeaModel, v: Vector, u: Vector)
    requires AllReady(sqrt, model) && |v| == |u| == 3 * |model.nodes|
    ensures Form(Stiffness(sqrt, model), v, u) == Form(Stiffness(sqrt, model), u, v)
  {
    StiffnessToSymmetric(sqrt, model, |model.elements|, v, u);
  }

  /** The assembled stiffness is symmetric. */
  lemma StiffnessSymmetric(sqrt: real -> real, model: FeaModel)
    requires AllReady(sqrt, model)
    ensures Symmetric(Stiffness(sqrt, model), 3 * |model.nodes|)
  {
    hide Form, AllReady, Stiffness;
    var n := 3 * |model.nodes|;
    forall v, u | |v| == n && |u| == n
      ensures Form(Stiffness(sqrt, model), v, u) == Form(Stiffness(sqrt, model), u, v)
    {
      StiffnessFormSymmetric(sqrt, model, v, u);
    }
    SymmetricFromForm(Stiffness(sqrt, model), n);
  }

  lemma PieceRigid(sqrt: real -> real, model: FeaModel, e: nat, h: Mat3, t: Vec3, u: Vector)
    requires AllReady(sqrt, model) && e < |model.elements| && Skew(h) && |u| == 3 * |model.nodes|
    ensures PieceForm(PieceAt(sqrt, model, e), AffineVector(model.nodes, h, t), u) == 0.0
  {
    hide Form, AffineVector, Resolve;
    var kind, piece := model.elements[e].kind, PieceAt(sqrt, model, e);
    PartRigid(sqrt, model, kind, h, t, Gather(u, piece.index));
  }

  lemma {:induction false} StiffnessToRigid(sqrt: real -> real, model: FeaModel, count: nat, h: Mat3, t: Vec3, u: Vector)
    requires AllReady(sqrt, model) && count <= |model.elements| && Skew(h) && |u| == 3 * |model.nodes|
    ensures Form(StiffnessTo(sqrt, model, count), AffineVector(model.nodes, h, t), u) == 0.0
    decreases count
  {
    hide Form, AllReady, PieceAt, AddPiece, PieceForm, AffineVector, Skew;
    var n, rigid := 3 * |model.nodes|, AffineVector(model.nodes, h, t);
    if count == 0 {
      ZeroForm(n, rigid, u);
    } else {
      StiffnessToRigid(sqrt, model, count - 1, h, t, u);
      AddPieceForm(StiffnessTo(sqrt, model, count - 1), n, PieceAt(sqrt, model, count - 1), rigid, u);
      PieceRigid(sqrt, model, count - 1, h, t, u);
    }
  }

  /** The assembled structure resists no rigid motion: no net internal force
      and no net internal moment, under any displacement. */
  lemma StiffnessRigid(sqrt: real -> real, model: FeaModel, h: Mat3, t: Vec3, u: Vector)
    requires AllReady(sqrt, model) && Skew(h) && |u| == 3 * |model.nodes|
    ensures Form(Stiffness(sqrt, model), AffineVector(model.nodes, h, t), u) == 0.0
  {
    StiffnessToRigid(sqrt, model, |model.elements|, h, t, u);
  }

  // ---------------------------------------------------------------- energy

  function PieceEnergy(piece: Piece, u: Vector): real
    requires PieceFits(piece, |u|)
  {
    PartEnergy(piece.part, Gather(u, piece.index))
  }

  function EnergyTo(sqrt: real -> real, model: FeaModel, count: nat, u: Vector): real
    requires AllReady(sqrt, model) && count <= |model.elements| && |u| == 3 * |model.nodes|
    decreases count
  {
    if count == 0 then 0.0
    else EnergyTo(sqrt, model, count - 1, u) + PieceEnergy(PieceAt(sqrt, model, count - 1), u)
  }

  lemma {:induction false} EnergyToIsForm(sqrt: real -> real, model: FeaModel, count: nat, u: Vector)
    requires AllReady(sqrt, model) && count <= |model.elements| && |u| == 3 * |model.nodes|
    ensures EnergyTo(sqrt, model, count, u) == 0.5 * Form(StiffnessTo(sqrt, model, count), u, u)
    decreases count
  {
    hide Form, AllReady, PieceAt, AddPiece, PartEnergy;
    var n := 3 * |model.nodes|;
    if count == 0 {
      ZeroForm(n, u, u);
    } else {
      var piece := PieceAt(sqrt, model, count - 1);
      EnergyToIsForm(sqrt, model, count - 1, u);
      AddPieceForm(StiffnessTo(sqrt, model, count - 1), n, piece, u, u);
      PartEnergyIsForm(piece.part, Gather(u, piece.index));
    }
  }

  ghost predicate AllPhysical(sqrt: real -> real, model: FeaModel)
    requires AllReady(sqrt, model)
  {
    forall e :: 0 <= e < |model.elements| ==> Physical(PieceAt(sqrt, model, e).part)
  }

  lemma {:induction false} EnergyToNonNegative(sqrt: real -> real, model: FeaModel, count: nat, u: Vector)
    requires AllReady(sqrt, model) && AllPhysical(sqrt, model) && count <= |model.elements| && |u| == 3 * |model.nodes|
    ensures EnergyTo(sqrt, model, count, u) >= 0.0
    decreases count
  {
    hide AllReady, PieceAt, PartEnergy, Physical;
    if count > 0 {
      var piece := PieceAt(sqrt, model, count - 1);
      EnergyToNonNegative(sqrt, model, count - 1, u);
      PartEnergyNonNegative(piece.part, Gather(u, piece.index));
    }
  }

  /** Summing the element energies gives half u . K u. */
  lemma EnergyIsForm(sqrt: real -> real, model: FeaModel, u: Vector)
    requires AllReady(sqrt, model) && |u| == 3 * |model.nodes|
    ensures EnergyTo(sqrt, model, |model.elements|, u) == 0.5 * Form(Stiffness(sqrt, model), u, u)
  {
    EnergyToIsForm(sqrt, model, |model.elements|, u);
  }

  /** The assembled stiffness of physical elements is positive semidefinite. */
  lemma StiffnessSemidefinite(sqrt: real -> real, model: FeaModel, u: Vector)
    requires AllReady(sqrt, model) && AllPhysical(sqrt, model) && |u| == 3 * |model.nodes|
    ensures Form(Stiffness(sqrt, model), u, u) >= 0.0
  {
    EnergyIsForm(sqrt, model, u);
    EnergyToNonNegative(sqrt, model, |model.elements|, u);
  }
}
