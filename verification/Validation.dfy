/** The checks made before solving: acceptance is exactly `ValidModel`, and a
    refusal names a defect that is there. */
module Validation {
  import opened Results
  import opened RealVectors
  import opened Linalg
  import opened FeaTypes
  import opened Elements
  import Moments
  import opened Loads
  import opened Constraints

  // ---------------------------------------------------------------- single values

  /** Unicode white space. */
  predicate IsWhite(c: char) {
    var n := c as int;
    9 <= n <= 13 || n == 32 || n == 0x85 || n == 0xA0 || n == 0x1680 || 0x2000 <= n <= 0x200A
    || n == 0x2028 || n == 0x2029 || n == 0x202F || n == 0x205F || n == 0x3000
  }

  predicate Blank(text: string) {
    forall i :: 0 <= i < |text| ==> IsWhite(text[i])
  }

  predicate Fraction(x: real) {
    0.0 < x < 1.0
  }

  predicate ValidSettings(s: Settings) {
    && Fraction(s.relativePivotTolerance)
    && Fraction(s.maximumSmallDeformationRatio)
    && Fraction(s.convergenceRelativeTolerance)
  }

  predicate TooLarge(model: FeaModel, s: Settings) {
    || s.maximumNodes == 0
    || |model.nodes| > s.maximumNodes
    || |model.nodes| > 256
    || |model.materials| > MAX_FEA_MATERIALS
    || |model.elements| > MAX_FEA_ELEMENTS
    || |model.constraints| > MAX_FEA_CONSTRAINTS
    || |model.loads| > MAX_FEA_LOADS
  }

  predicate ValidNode(p: Vec3) {
    Abs(p.x) <= 1000000000.0 && Abs(p.y) <= 1000000000.0 && Abs(p.z) <= 1000000000.0
  }

  predicate ValidMaterial(m: Material) {
    m.young > 0.0 && -1.0 <= m.poisson < 0.5 && (m.yieldStrength.Some? ==> m.yieldStrength.value > 0.0)
  }

  predicate DistinctNodes(kind: ElementKind) {
    match kind
    case LinearTruss2(a, b, _, _) => a != b
    case LinearTetrahedron4(a, b, c, d, _) => a != b && a != c && a != d && b != c && b != d && c != d
  }

  /** Connectivity regardless of node order. */
  function NodeSet(kind: ElementKind): set<nat> {
    match kind
    case LinearTruss2(a, b, _, _) => {a, b}
    case LinearTetrahedron4(a, b, c, d, _) => {a, b, c, d}
  }

  lemma SizeOfInserted(s: set<nat>, x: nat)
    ensures |s + {x}| == |s| + (if x in s then 0 else 1)
  {
    if x in s {
      assert s + {x} == s;
    }
  }

  /** No node is named twice exactly when the set of nodes is as large as their list. */
  lemma DistinctBySize(kind: ElementKind)
    ensures DistinctNodes(kind) <==> |NodeSet(kind)| == |kind.Nodes()|
  {
    var (a, b) := (kind.a, kind.b);
    SizeOfInserted({a}, b);
    assert {a} + {b} == {a, b};
    if kind.LinearTetrahedron4? {
      var (c, d) := (kind.c, kind.d);
      SizeOfInserted({a, b}, c);
      SizeOfInserted({a, b, c}, d);
      assert {a, b} + {c} == {a, b, c} && {a, b, c} + {d} == {a, b, c, d};
    }
  }

  predicate SameConnectivity(k: ElementKind, l: ElementKind) {
    k.LinearTruss2? == l.LinearTruss2? && NodeSet(k) == NodeSet(l)
  }

  predicate Degenerate(sqrt: real -> real, nodes: seq<Vec3>, kind: ElementKind)
    requires kind.InRange(|nodes|)
  {
    match kind
    case LinearTruss2(a, b, _, _) => TrussGeometry(sqrt, nodes[a], nodes[b]).None?
    case LinearTetrahedron4(a, b, c, d, _) => TetGeometry(nodes[a], nodes[b], nodes[c], nodes[d]).None?
  }

  predicate HasMaterial(materials: seq<Material>, id: nat) {
    exists m :: 0 <= m < |materials| && materials[m].id == id
  }

  predicate ValidKind(sqrt: real -> real, model: FeaModel, kind: ElementKind) {
    && kind.InRange(|model.nodes|)
    && DistinctNodes(kind)
    && (kind.LinearTruss2? ==> kind.area > 0.0)
    && !Degenerate(sqrt, model.nodes, kind)
    && HasMaterial(model.materials, kind.materialId)
  }

  // ---------------------------------------------------------------- boundary faces

  function FacesOf(kind: ElementKind): seq<set<nat>> {
    match kind
    case LinearTruss2(_, _, _, _) => []
    case LinearTetrahedron4(a, b, c, d, _) => [{a, b, c}, {a, b, d}, {a, c, d}, {b, c, d}]
  }

  function Occurrences(faces: seq<set<nat>>, face: set<nat>, hi: nat): nat
    requires hi <= |faces|
    decreases hi
  {
    if hi == 0 then 0 else Occurrences(faces, face, hi - 1) + (if faces[hi - 1] == face then 1 else 0)
  }

  /** How many tetrahedra among the first `count` elements have the face. */
  function FaceCount(elements: seq<Element>, face: set<nat>, count: nat): nat
    requires count <= |elements|
    decreases count
  {
    if count == 0 then 0
    else
      var faces := FacesOf(elements[count - 1].kind);
      FaceCount(elements, face, count - 1) + Occurrences(faces, face, |faces|)
  }

  function Counted(faces: map<set<nat>, nat>, face: set<nat>): nat {
    if face in faces then faces[face] else 0
  }

  predicate ValidLoad(sqrt: real -> real, model: FeaModel, load: Load) {
    && LoadFits(load, |model.nodes|)
    && (load.SurfaceTraction? ==>
          && FaceCount(model.elements, {load.a, load.b, load.c}, |model.elements|) == 1
          && Moments.Area(sqrt, model.nodes[load.a], model.nodes[load.b], model.nodes[load.c]) > NEGLIGIBLE)
  }

  // ---------------------------------------------------------------- the whole model

  ghost predicate MaterialsValid(materials: seq<Material>) {
    && (forall i, j :: 0 <= i < j < |materials| ==> materials[i].id != materials[j].id)
    && (forall i :: 0 <= i < |materials| ==> ValidMaterial(materials[i]))
  }

  ghost predicate ElementsValid(sqrt: real -> real, model: FeaModel, count: nat)
    requires count <= |model.elements|
  {
    && (forall i, j :: 0 <= i < j < count ==> model.elements[i].id != model.elements[j].id)
    && (forall i, j :: 0 <= i < j < count ==> !SameConnectivity(model.elements[i].kind, model.elements[j].kind))
    && (forall i :: 0 <= i < count ==> ValidKind(sqrt, model, model.elements[i].kind))
  }

  ghost predicate ConstraintsValid(model: FeaModel) {
    && |model.constraints| > 0
    && (forall i :: 0 <= i < |model.constraints| ==>
                      model.constraints[i].node < |model.nodes| && !Unconstrained(model.constraints[i]))
    && Consistent(model.constraints)
  }

  ghost predicate LoadsValid(sqrt: real -> real, model: FeaModel) {
    && |model.loads| > 0
    && forall k :: 0 <= k < |model.loads| ==> ValidLoad(sqrt, model, model.loads[k])
  }

  ghost predicate ValidModel(sqrt: real -> real, model: FeaModel, s: Settings) {
    && model.schema == FEA_MODEL_SCHEMA_V1
    && !Blank(model.caseId)
    && |model.nodes| > 0 && |model.elements| > 0
    && !TooLarge(model, s)
    && ValidSettings(s)
    && (forall i :: 0 <= i < |model.nodes| ==> ValidNode(model.nodes[i]))
    && MaterialsValid(model.materials)
    && ElementsValid(sqrt, model, |model.elements|)
    && ConstraintsValid(model)
    && LoadsValid(sqrt, model)
  }

  /** Errors that name an element. */
  predicate NamesElement(error: FeaError) {
    error.DuplicateElementId? || error.InvalidElementNode? || error.RepeatedElementNode? || error.InvalidArea?
    || error.DuplicateElement? || error.DegenerateElement? || error.MissingMaterial?
  }

  /** Element `i` has the defect that `error` names. */
  ghost predicate ElementDefect(sqrt: real -> real, model: FeaModel, error: FeaError, i: nat)
    requires i < |model.elements|
  {
    var kind := model.elements[i].kind;
    match error
    case DuplicateElementId(id) => exists j :: 0 <= j < i && model.elements[j].id == model.elements[i].id == id
    case InvalidElementNode(id) => id == model.elements[i].id && !kind.InRange(|model.nodes|)
    case RepeatedElementNode(id) => id == model.elements[i].id && !DistinctNodes(kind)
    case InvalidArea(id) => id == model.elements[i].id && kind.LinearTruss2? && kind.area <= 0.0
    case DuplicateElement(id) =>
      id == model.elements[i].id && exists j :: 0 <= j < i && SameConnectivity(model.elements[j].kind, kind)
    case DegenerateElement(id) =>
      id == model.elements[i].id && kind.InRange(|model.nodes|) && Degenerate(sqrt, model.nodes, kind)
    case MissingMaterial(id) => id == model.elements[i].id && !HasMaterial(model.materials, kind.materialId)
    case _ => false
  }

  /** The defect that the error names is in the model. */
  ghost predicate Defect(sqrt: real -> real, model: FeaModel, s: Settings, error: FeaError) {
    match error
    case UnsupportedSchema => model.schema != FEA_MODEL_SCHEMA_V1
    case EmptyCaseId => Blank(model.caseId)
    case EmptyMesh => |model.nodes| == 0 || |model.elements| == 0
    case ModelTooLarge => TooLarge(model, s)
    case InvalidSettings => !ValidSettings(s)
    case InvalidNode => exists i :: 0 <= i < |model.nodes| && !ValidNode(model.nodes[i])
    case DuplicateMaterialId => exists i, j :: 0 <= i < j < |model.materials| && model.materials[i].id == model.materials[j].id
    case InvalidMaterial => exists i :: 0 <= i < |model.materials| && !ValidMaterial(model.materials[i])
    case MissingConstraint => |model.constraints| == 0
    case InvalidConstraint =>
      exists i :: 0 <= i < |model.constraints|
                  && (model.constraints[i].node >= |model.nodes| || Unconstrained(model.constraints[i]))
    case ConflictingConstraint => !Consistent(model.constraints)
    case MissingLoad => |model.loads| == 0
    case InvalidLoad =>
      exists k :: 0 <= k < |model.loads| && !ValidLoad(sqrt, model, model.loads[k])
    case NonBoundaryTraction =>
      exists k :: 0 <= k < |model.loads| && model.loads[k].SurfaceTraction?
                  && FaceCount(model.elements, {model.loads[k].a, model.loads[k].b, model.loads[k].c}, |model.elements|) != 1
    case SingularSystem => false
    case _ => exists i :: 0 <= i < |model.elements| && ElementDefect(sqrt, model, error, i)
  }

  lemma DefectRefutes(sqrt: real -> real, model: FeaModel, s: Settings, error: FeaError)
    requires Defect(sqrt, model, s, error)
    ensures !ValidModel(sqrt, model, s)
  {
    hide Consistent, FaceCount, Moments.Area;
    match error
    case DuplicateElementId(_) =>
    case _ =>
  }

  // ---------------------------------------------------------------- checks

  method CheckMaterials(materials: seq<Material>) returns (r: Option<FeaError>, ids: set<nat>)
    ensures r.None? <==> MaterialsValid(materials)
    ensures r.None? ==> forall id :: id in ids <==> HasMaterial(materials, id)
    ensures r.Some? ==> r.value == DuplicateMaterialId || r.value == InvalidMaterial
    ensures r == Some(DuplicateMaterialId) ==> exists i, j :: 0 <= i < j < |materials| && materials[i].id == materials[j].id
    ensures r == Some(InvalidMaterial) ==> exists i :: 0 <= i < |materials| && !ValidMaterial(materials[i])
  {
    ids := {};
    for i := 0 to |materials|
      invariant forall k :: 0 <= k < i ==> materials[k].id in ids
      invariant forall id :: id in ids ==> exists k :: 0 <= k < i && materials[k].id == id
      invariant forall k, l :: 0 <= k < l < i ==> materials[k].id != materials[l].id
      invariant forall k :: 0 <= k < i ==> ValidMaterial(materials[k])
    {
      if materials[i].id in ids {
        return Some(DuplicateMaterialId), ids;
      }
      ids := ids + {materials[i].id};
      var m := materials[i];
      if m.young <= 0.0 || m.poisson < -1.0 || m.poisson >= 0.5 || (m.yieldStrength.Some? && m.yieldStrength.value <= 0.0) {
        return Some(InvalidMaterial), ids;
      }
    }
    return None, ids;
  }

  /** The sets that the element loop fills, after `count` elements. */
  ghost predicate Recorded(elements: seq<Element>, count: nat, ids: set<nat>, trusses: set<set<nat>>, tetrahedra: set<set<nat>>)
    requires count <= |elements|
  {
    && (forall k :: 0 <= k < count ==> elements[k].id in ids)
    && (forall id :: id in ids ==> exists k :: 0 <= k < count && elements[k].id == id)
    && (forall k :: 0 <= k < count && elements[k].kind.LinearTruss2? ==> NodeSet(elements[k].kind) in trusses)
    && (forall key :: key in trusses ==>
                        exists k :: 0 <= k < count && elements[k].kind.LinearTruss2? && NodeSet(elements[k].kind) == key)
    && (forall k :: 0 <= k < count && elements[k].kind.LinearTetrahedron4? ==> NodeSet(elements[k].kind) in tetrahedra)
    && (forall key :: key in tetrahedra ==>
                        exists k :: 0 <= k < count && elements[k].kind.LinearTetrahedron4? && NodeSet(elements[k].kind) == key)
  }

  /** The checks on element `i`, given what the elements before it recorded. */
  method CheckElement(sqrt: real -> real, model: FeaModel, i: nat, materialIds: set<nat>,
                      ids: set<nat>, trusses: set<set<nat>>, tetrahedra: set<set<nat>>) returns (r: Option<FeaError>)
    requires i < |model.elements| && Recorded(model.elements, i, ids, trusses, tetrahedra)
    requires forall id :: id in materialIds <==> HasMaterial(model.materials, id)
    ensures r.None? <==> && ValidKind(sqrt, model, model.elements[i].kind)
                         && (forall j :: 0 <= j < i ==> model.elements[j].id != model.elements[i].id)
                         && (forall j :: 0 <= j < i ==> !SameConnectivity(model.elements[j].kind, model.elements[i].kind))
    ensures r.Some? ==> NamesElement(r.value) && r.value != SingularSystem && ElementDefect(sqrt, model, r.value, i)
  {
    var element := model.elements[i];
    var kind := element.kind;
    if element.id in ids {
      return Some(DuplicateElementId(element.id));
    }
    if !kind.InRange(|model.nodes|) {
      return Some(InvalidElementNode(element.id));
    }
    DistinctBySize(kind);
    if |NodeSet(kind)| != |kind.Nodes()| {
      return Some(RepeatedElementNode(element.id));
    }
    match kind {
      case LinearTruss2(_, _, _, area) =>
        if area <= 0.0 {
          return Some(InvalidArea(element.id));
        }
        if NodeSet(kind) in trusses {
          return Some(DuplicateElement(element.id));
        }
      case LinearTetrahedron4(_, _, _, _, _) =>
        if NodeSet(kind) in tetrahedra {
          return Some(DuplicateElement(element.id));
        }
    }
    if Degenerate(sqrt, model.nodes, kind) {
      return Some(DegenerateElement(element.id));
    }
    if kind.materialId !in materialIds {
      return Some(MissingMaterial(element.id));
    }
    return None;
  }

  method CountFaces(kind: ElementKind, before: map<set<nat>, nat>) returns (faces: map<set<nat>, nat>)
    ensures forall face :: Counted(faces, face) == Counted(before, face) + Occurrences(FacesOf(kind), face, |FacesOf(kind)|)
  {
    faces := before;
    var own := FacesOf(kind);
    for k := 0 to |own|
      invariant forall face :: Counted(faces, face) == Counted(before, face) + Occurrences(own, face, k)
    {
      faces := faces[own[k] := Counted(faces, own[k]) + 1];
    }
  }

  method CheckElements(sqrt: real -> real, model: FeaModel, materialIds: set<nat>)
    returns (r: Option<FeaError>, faces: map<set<nat>, nat>)
    requires forall id :: id in materialIds <==> HasMaterial(model.materials, id)
    ensures r.None? <==> ElementsValid(sqrt, model, |model.elements|)
    ensures r.None? ==> forall face :: Counted(faces, face) == FaceCount(model.elements, face, |model.elements|)
    ensures r.Some? ==> NamesElement(r.value) && r.value != SingularSystem
    ensures r.Some? ==> exists i :: 0 <= i < |model.elements| && ElementDefect(sqrt, model, r.value, i)
  {
    hide ElementDefect, ValidKind, NodeSet, SameConnectivity, Recorded, NamesElement, Occurrences;
    var ids: set<nat>, trusses: set<set<nat>>, tetrahedra: set<set<nat>> := {}, {}, {};
    faces := map[];
    RecordedNone(model.elements);
    for i := 0 to |model.elements|
      invariant Recorded(model.elements, i, ids, trusses, tetrahedra)
      invariant ElementsValid(sqrt, model, i)
      invariant forall face :: Counted(faces, face) == FaceCount(model.elements, face, i)
    {
      var kind := model.elements[i].kind;
      r := CheckElement(sqrt, model, i, materialIds, ids, trusses, tetrahedra);
      if r.Some? {
        return r, faces;
      }
      RecordElement(model.elements, i, ids, trusses, tetrahedra);
      ids := ids + {model.elements[i].id};
      if kind.LinearTruss2? {
        trusses := trusses + {NodeSet(kind)};
      } else {
        tetrahedra := tetrahedra + {NodeSet(kind)};
      }
      faces := CountFaces(kind, faces);
    }
    return None, faces;
  }

  lemma RecordedNone(elements: seq<Element>)
    ensures Recorded(elements, 0, {}, {}, {})
  {
  }

  lemma RecordElement(elements: seq<Element>, i: nat, ids: set<nat>, trusses: set<set<nat>>, tetrahedra: set<set<nat>>)
    requires i < |elements| && Recorded(elements, i, ids, trusses, tetrahedra)
    ensures var kind := elements[i].kind;
            Recorded(elements, i + 1, ids + {elements[i].id},
                     if kind.LinearTruss2? then trusses + {NodeSet(kind)} else trusses,
                     if kind.LinearTruss2? then tetrahedra else tetrahedra + {NodeSet(kind)})
  {
    hide NodeSet;
  }

  /** `c` prescribes another value than the one recorded. */
  predicate Conflicts(c: Constraint, before: map<nat, real>, dof: nat) {
    dof / 3 == c.node && c.Axis(dof % 3).Some? && dof in before && before[dof] != c.Axis(dof % 3).value
  }

  /** Records the values of one constraint, or names a degree of freedom with another value. */
  method Prescribe(c: Constraint, before: map<nat, real>) returns (conflict: Option<nat>, prescribed: map<nat, real>)
    ensures conflict.Some? ==> Conflicts(c, before, conflict.value)
    ensures conflict.None? ==> forall dof :: dof in before ==> dof in prescribed && prescribed[dof] == before[dof]
    ensures conflict.None? ==> forall dof :: dof in prescribed && dof !in before ==> Prescribes(c, dof, prescribed[dof])
    ensures conflict.None? ==> forall dof: nat, v :: Prescribes(c, dof, v) ==> dof in prescribed && prescribed[dof] == v
  {
    prescribed := before;
    for axis := 0 to 3
      invariant forall dof :: dof in before ==> dof in prescribed && prescribed[dof] == before[dof]
      invariant forall dof :: dof in prescribed && dof !in before ==> Prescribes(c, dof, prescribed[dof]) && dof % 3 < axis
      invariant forall dof: nat, v :: Prescribes(c, dof, v) && dof % 3 < axis ==> dof in prescribed && prescribed[dof] == v
    {
      if c.Axis(axis).Some? {
        var dof, value := c.node * 3 + axis, c.Axis(axis).value;
        assert dof / 3 == c.node && dof % 3 == axis;
        if dof in prescribed && prescribed[dof] != value {
          return Some(dof), prescribed;
        }
        prescribed := prescribed[dof := value];
      }
    }
    return None, prescribed;
  }

  method CheckConstraints(model: FeaModel) returns (r: Option<FeaError>)
    ensures r.None? <==> ConstraintsValid(model)
    ensures r.Some? ==> r.value == MissingConstraint || r.value == InvalidConstraint || r.value == ConflictingConstraint
    ensures r == Some(MissingConstraint) ==> |model.constraints| == 0
    ensures r == Some(InvalidConstraint) ==>
              exists i :: 0 <= i < |model.constraints|
                          && (model.constraints[i].node >= |model.nodes| || Unconstrained(model.constraints[i]))
    ensures r == Some(ConflictingConstraint) ==> !Consistent(model.constraints)
  {
    if |model.constraints| == 0 {
      return Some(MissingConstraint);
    }
    hide Consistent, Collects, Conflicts, Prescribes;
    var constraints := model.constraints;
    var prescribed: map<nat, real> := map[];
    ConsistentEmpty(constraints);
    for i := 0 to |constraints|
      invariant Collects(constraints[..i], prescribed)
      invariant Consistent(constraints[..i])
      invariant forall k :: 0 <= k < i ==> constraints[k].node < |model.nodes| && !Unconstrained(constraints[k])
    {
      var c := constraints[i];
      if c.node >= |model.nodes| || Unconstrained(c) {
        return Some(InvalidConstraint);
      }
      ghost var before := prescribed;
      var conflict;
      conflict, prescribed := Prescribe(c, prescribed);
      if conflict.Some? {
        ConflictFound(constraints, i, before, conflict.value);
        return Some(ConflictingConstraint);
      }
      ConsistentExtend(constraints, i, before, prescribed);
    }
    assert constraints[..|constraints|] == constraints;
    return None;
  }

  lemma ConsistentEmpty(constraints: seq<Constraint>)
    ensures Consistent(constraints[..0]) && Collects(constraints[..0], map[])
  {
  }

  lemma ConflictFound(constraints: seq<Constraint>, i: nat, before: map<nat, real>, dof: nat)
    requires i < |constraints| && Collects(constraints[..i], before)
    requires Conflicts(constraints[i], before, dof)
    ensures !Consistent(constraints)
  {
    var k :| 0 <= k < i && Prescribes(constraints[..i][k], dof, before[dof]);
    assert Prescribes(constraints[k], dof, before[dof]);
    assert Prescribes(constraints[i], dof, constraints[i].Axis(dof % 3).value);
  }

  lemma ConsistentExtend(constraints: seq<Constraint>, i: nat, before: map<nat, real>, after: map<nat, real>)
    requires i < |constraints| && Consistent(constraints[..i]) && Collects(constraints[..i], before)
    requires forall dof :: dof in before ==> dof in after && after[dof] == before[dof]
    requires forall dof :: dof in after && dof !in before ==> Prescribes(constraints[i], dof, after[dof])
    requires forall dof: nat, v :: Prescribes(constraints[i], dof, v) ==> dof in after && after[dof] == v
    ensures Consistent(constraints[..i + 1]) && Collects(constraints[..i + 1], after)
  {
    hide Prescribes;
    CollectsExtend(constraints, i, before, after);
    var all := constraints[..i + 1];
    forall k, dof: nat, v | 0 <= k < |all| && Prescribes(all[k], dof, v)
      ensures dof in after && after[dof] == v
    {
      if k < i {
        assert Prescribes(constraints[..i][k], dof, v);
        CollectedValues(constraints[..i], before, k, dof, v);
      }
    }
  }

  method CheckLoads(sqrt: real -> real, model: FeaModel, faces: map<set<nat>, nat>) returns (r: Option<FeaError>)
    requires forall face :: Counted(faces, face) == FaceCount(model.elements, face, |model.elements|)
    ensures r.None? <==> LoadsValid(sqrt, model)
    ensures r.Some? ==> r.value == MissingLoad || r.value == InvalidLoad || r.value == NonBoundaryTraction
    ensures r == Some(MissingLoad) ==> |model.loads| == 0
    ensures r == Some(InvalidLoad) ==> exists k :: 0 <= k < |model.loads| && !ValidLoad(sqrt, model, model.loads[k])
    ensures r == Some(NonBoundaryTraction) ==>
              exists k :: 0 <= k < |model.loads| && model.loads[k].SurfaceTraction?
                          && FaceCount(model.elements, {model.loads[k].a, model.loads[k].b, model.loads[k].c}, |model.elements|) != 1
  {
    hide Moments.Area;
    if |model.loads| == 0 {
      return Some(MissingLoad);
    }
    for k := 0 to |model.loads|
      invariant forall l :: 0 <= l < k ==> ValidLoad(sqrt, model, model.loads[l])
    {
      var load := model.loads[k];
      if !LoadFits(load, |model.nodes|) {
        return Some(InvalidLoad);
      }
      if load.SurfaceTraction? {
        assert Counted(faces, {load.a, load.b, load.c}) == FaceCount(model.elements, {load.a, load.b, load.c}, |model.elements|);
        if Counted(faces, {load.a, load.b, load.c}) != 1 {
          return Some(NonBoundaryTraction);
        }
        if Moments.Area(sqrt, model.nodes[load.a], model.nodes[load.b], model.nodes[load.c]) <= NEGLIGIBLE {
          return Some(InvalidLoad);
        }
      }
    }
    return None;
  }

  /** The checks that need no loop over the mesh. */
  method CheckHeader(sqrt: real -> real, model: FeaModel, s: Settings) returns (r: Option<FeaError>)
    ensures r.None? <==> && model.schema == FEA_MODEL_SCHEMA_V1
                         && !Blank(model.caseId)
                         && |model.nodes| > 0 && |model.elements| > 0
                         && !TooLarge(model, s)
                         && ValidSettings(s)
                         && (forall i :: 0 <= i < |model.nodes| ==> ValidNode(model.nodes[i]))
    ensures r.Some? ==> r.value != SingularSystem && Defect(sqrt, model, s, r.value)
  {
    hide Blank, TooLarge, ValidSettings, ValidNode, ElementDefect, ValidLoad, FaceCount, Consistent;
    if model.schema != FEA_MODEL_SCHEMA_V1 {
      return Some(UnsupportedSchema);
    }
    if Blank(model.caseId) {
      return Some(EmptyCaseId);
    }
    if |model.nodes| == 0 || |model.elements| == 0 {
      return Some(EmptyMesh);
    }
    var large := CheckSize(model, s);
    if large {
      return Some(ModelTooLarge);
    }
    var proper := CheckSettings(s);
    if !proper {
      return Some(InvalidSettings);
    }
    var placed := CheckNodes(model.nodes);
    if !placed {
      return Some(InvalidNode);
    }
    return None;
  }

  method CheckSize(model: FeaModel, s: Settings) returns (large: bool)
    ensures large <==> TooLarge(model, s)
  {
    large := s.maximumNodes == 0
    || |model.nodes| > s.maximumNodes
    || |model.nodes| > 256
    || |model.materials| > MAX_FEA_MATERIALS
    || |model.elements| > MAX_FEA_ELEMENTS
    || |model.constraints| > MAX_FEA_CONSTRAINTS
    || |model.loads| > MAX_FEA_LOADS;
  }

  method CheckSettings(s: Settings) returns (proper: bool)
    ensures proper <==> ValidSettings(s)
  {
    proper := !(s.relativePivotTolerance <= 0.0 || s.relativePivotTolerance >= 1.0
                || s.maximumSmallDeformationRatio <= 0.0 || s.maximumSmallDeformationRatio >= 1.0
                || s.convergenceRelativeTolerance <= 0.0 || s.convergenceRelativeTolerance >= 1.0);
  }

  method CheckNodes(nodes: seq<Vec3>) returns (placed: bool)
    ensures placed <==> forall i :: 0 <= i < |nodes| ==> ValidNode(nodes[i])
  {
    for i := 0 to |nodes|
      invariant forall k :: 0 <= k < i ==> ValidNode(nodes[k])
    {
      for axis := 0 to 3
        invariant forall other :: 0 <= other < axis ==> Abs(nodes[i].Axis(other)) <= 1000000000.0
      {
        if Abs(nodes[i].Axis(axis)) > 1000000000.0 {
          return false;
        }
      }
      assert nodes[i].Axis(0) == nodes[i].x && nodes[i].Axis(1) == nodes[i].y && nodes[i].Axis(2) == nodes[i].z;
    }
    return true;
  }

  lemma MaterialDefect(sqrt: real -> real, model: FeaModel, s: Settings, e: FeaError)
    requires e == DuplicateMaterialId || e == InvalidMaterial
    requires e == DuplicateMaterialId ==> exists i, j :: 0 <= i < j < |model.materials| && model.materials[i].id == model.materials[j].id
    requires e == InvalidMaterial ==> exists i :: 0 <= i < |model.materials| && !ValidMaterial(model.materials[i])
    ensures Defect(sqrt, model, s, e)
  {
    hide ValidMaterial;
  }

  lemma ElementDefects(sqrt: real -> real, model: FeaModel, s: Settings, e: FeaError)
    requires NamesElement(e) && exists i :: 0 <= i < |model.elements| && ElementDefect(sqrt, model, e, i)
    ensures Defect(sqrt, model, s, e)
  {
    hide ElementDefect;
  }

  lemma ConstraintDefect(sqrt: real -> real, model: FeaModel, s: Settings, e: FeaError)
    requires e == MissingConstraint || e == InvalidConstraint || e == ConflictingConstraint
    requires e == MissingConstraint ==> |model.constraints| == 0
    requires e == InvalidConstraint ==>
               exists i :: 0 <= i < |model.constraints|
                           && (model.constraints[i].node >= |model.nodes| || Unconstrained(model.constraints[i]))
    requires e == ConflictingConstraint ==> !Consistent(model.constraints)
    ensures Defect(sqrt, model, s, e)
  {
    hide Consistent, Unconstrained;
  }

  lemma LoadDefect(sqrt: real -> real, model: FeaModel, s: Settings, e: FeaError)
    requires e == MissingLoad || e == InvalidLoad || e == NonBoundaryTraction
    requires e == MissingLoad ==> |model.loads| == 0
    requires e == InvalidLoad ==> exists k :: 0 <= k < |model.loads| && !ValidLoad(sqrt, model, model.loads[k])
    requires e == NonBoundaryTraction ==>
               exists k :: 0 <= k < |model.loads| && model.loads[k].SurfaceTraction?
                           && FaceCount(model.elements, {model.loads[k].a, model.loads[k].b, model.loads[k].c}, |model.elements|) != 1
    ensures Defect(sqrt, model, s, e)
  {
    hide ValidLoad, FaceCount;
  }

  method Validate(sqrt: real -> real, model: FeaModel, s: Settings) returns (r: Option<FeaError>)
    ensures r.None? <==> ValidModel(sqrt, model, s)
    ensures r.Some? ==> r.value != SingularSystem && Defect(sqrt, model, s, r.value)
  {
    hide MaterialsValid, ElementsValid, ConstraintsValid, LoadsValid, ElementDefect, Blank, TooLarge, ValidSettings;
    hide ValidNode, ValidMaterial, ValidLoad, Consistent, Unconstrained, FaceCount, Counted, HasMaterial, Defect;
    r := CheckHeader(sqrt, model, s);
    if r.Some? {
      return r;
    }
    var materialIds;
    r, materialIds := CheckMaterials(model.materials);
    if r.Some? {
      MaterialDefect(sqrt, model, s, r.value);
      return r;
    }
    var faces;
    r, faces := CheckElements(sqrt, model, materialIds);
    if r.Some? {
      ElementDefects(sqrt, model, s, r.value);
      return r;
    }
    r := CheckConstraints(model);
    if r.Some? {
      ConstraintDefect(sqrt, model, s, r.value);
      return r;
    }
    r := CheckLoads(sqrt, model, faces);
    if r.Some? {
      LoadDefect(sqrt, model, s, r.value);
    }
  }
}
