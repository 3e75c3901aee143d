/** What it means that a loaded triangle lies on the boundary of the mesh. */
module BoundaryFaces {
  import opened FeaTypes
  import opened Validation

  /** A tetrahedron has the face: its three corners are among its four nodes. */
  predicate HasFace(kind: ElementKind, face: set<nat>) {
    kind.LinearTetrahedron4? && |face| == 3 && face <= {kind.a, kind.b, kind.c, kind.d}
  }

  /** A face in the model is a face of exactly one element. */
  ghost predicate OnBoundary(elements: seq<Element>, face: set<nat>) {
    exists e :: 0 <= e < |elements| && HasFace(elements[e].kind, face)
                && forall f :: 0 <= f < |elements| && f != e ==> !HasFace(elements[f].kind, face)
  }

  lemma Occurrences4(faces: seq<set<nat>>, face: set<nat>)
    requires |faces| == 4
    ensures Occurrences(faces, face, 4) == One(faces[0] == face) + One(faces[1] == face) + One(faces[2] == face) + One(faces[3] == face)
  {
    assert Occurrences(faces, face, 2) == One(faces[0] == face) + One(faces[1] == face) by {
      assert Occurrences(faces, face, 1) == One(faces[0] == face);
    }
  }

  function One(condition: bool): nat {
    if condition then 1 else 0
  }

  lemma Three(a: nat, b: nat, c: nat)
    requires a != b && a != c && b != c
    ensures |{a, b, c}| == 3
  {
    assert {a, b, c} - {a} == {b, c};
    assert {b, c} - {b} == {c};
  }

  lemma SameThree(face: set<nat>, a: nat, b: nat, c: nat)
    requires |face| == 3 && face <= {a, b, c} && a != b && a != c && b != c
    ensures face == {a, b, c}
  {
    Three(a, b, c);
    var rest := {a, b, c} - face;
    assert |rest| == 0;
  }

  lemma Four(a: nat, b: nat, c: nat, d: nat)
    requires a != b && a != c && a != d && b != c && b != d && c != d
    ensures |{a, b, c, d}| == 4
  {
    Three(b, c, d);
    assert {a, b, c, d} - {a} == {b, c, d};
  }

  /** A tetrahedron counts a face once when it has it, and else not at all. */
  lemma FacesCounted(kind: ElementKind, face: set<nat>)
    requires DistinctNodes(kind)
    ensures Occurrences(FacesOf(kind), face, |FacesOf(kind)|) == One(HasFace(kind, face))
  {
    if kind.LinearTetrahedron4? {
      var (a, b, c, d) := (kind.a, kind.b, kind.c, kind.d);
      Occurrences4(FacesOf(kind), face);
      hide Occurrences;
      Three(a, b, c);
      Three(a, b, d);
      Three(a, c, d);
      Three(b, c, d);
      if HasFace(kind, face) {
        Four(a, b, c, d);
        assert face != {a, b, c, d};
        if d !in face {
          SameThree(face, a, b, c);
        } else if c !in face {
          SameThree(face, a, b, d);
        } else if b !in face {
          SameThree(face, a, c, d);
        } else {
          assert a !in face;
          SameThree(face, b, c, d);
        }
      }
    }
  }

  lemma {:induction false} CountIsZero(elements: seq<Element>, face: set<nat>, count: nat)
    requires count <= |elements| && forall e :: 0 <= e < count ==> DistinctNodes(elements[e].kind)
    ensures FaceCount(elements, face, count) == 0 <==> forall e :: 0 <= e < count ==> !HasFace(elements[e].kind, face)
    decreases count
  {
    hide HasFace, DistinctNodes, Occurrences, FacesOf;
    if count > 0 {
      CountIsZero(elements, face, count - 1);
      FacesCounted(elements[count - 1].kind, face);
    }
  }

  lemma {:induction false} CountIsOne(elements: seq<Element>, face: set<nat>, count: nat)
    requires count <= |elements| && forall e :: 0 <= e < count ==> DistinctNodes(elements[e].kind)
    ensures FaceCount(elements, face, count) == 1 <==> OnBoundary(elements[..count], face)
    decreases count
  {
    hide HasFace, DistinctNodes, Occurrences, FacesOf;
    if count > 0 {
      var n := count - 1;
      CountIsOne(elements, face, n);
      CountIsZero(elements, face, n);
      FacesCounted(elements[n].kind, face);
      LastOwner(elements[..count], face);
      assert elements[..count][..n] == elements[..n];
    }
  }

  lemma LastOwner(elements: seq<Element>, face: set<nat>)
    requires |elements| > 0
    ensures var n := |elements| - 1;
            OnBoundary(elements, face) <==>
            if HasFace(elements[n].kind, face) then forall e :: 0 <= e < n ==> !HasFace(elements[e].kind, face)
            else OnBoundary(elements[..n], face)
  {
    hide HasFace;
    var n := |elements| - 1;
    if OnBoundary(elements[..n], face) && !HasFace(elements[n].kind, face) {
      var e :| 0 <= e < n && HasFace(elements[..n][e].kind, face)
               && forall f :: 0 <= f < n && f != e ==> !HasFace(elements[..n][f].kind, face);
      forall f | 0 <= f < |elements| && f != e
        ensures !HasFace(elements[f].kind, face)
      {
        assert f < n ==> elements[..n][f] == elements[f];
      }
      assert HasFace(elements[e].kind, face);
    }
    if OnBoundary(elements, face) {
      var e :| 0 <= e < |elements| && HasFace(elements[e].kind, face)
               && forall f :: 0 <= f < |elements| && f != e ==> !HasFace(elements[f].kind, face);
      assert e < n ==> HasFace(elements[..n][e].kind, face);
    }
  }

  /** In an accepted model every loaded triangle is a face of exactly one
      tetrahedron. */
  lemma LoadedFacesAreBoundary(sqrt: real -> real, model: FeaModel, settings: Settings, k: nat)
    requires ValidModel(sqrt, model, settings) && k < |model.loads| && model.loads[k].SurfaceTraction?
    ensures OnBoundary(model.elements, {model.loads[k].a, model.loads[k].b, model.loads[k].c})
  {
    hide OnBoundary, FaceCount, Degenerate, HasMaterial, DistinctNodes;
    var face := {model.loads[k].a, model.loads[k].b, model.loads[k].c};
    forall e | 0 <= e < |model.elements|
      ensures DistinctNodes(model.elements[e].kind)
    {
      assert ValidKind(sqrt, model, model.elements[e].kind);
    }
    assert ValidLoad(sqrt, model, model.loads[k]);
    CountIsOne(model.elements, face, |model.elements|);
    assert model.elements[..|model.elements|] == model.elements;
  }
}
