/** Loads scattered into the force vector, and resultants of nodal vectors. */
module Loads {
  import opened RealVectors
  import opened Linalg
  import opened FeaTypes
  import opened Elements
  import opened Assembly
  import Moments

  predicate LoadFits(load: Load, count: nat) {
    match load
    case NodalForce(node, _) => node < count
    case SurfaceTraction(a, b, c, _) => a < count && b < count && c < count
  }

  /** Adds `v` at the three degrees of freedom of `node`. */
  function AddAtNode(f: Vector, node: nat, v: Vec3): (r: Vector)
    requires 3 * node + 2 < |f|
    ensures |r| == |f|
  {
    f[3 * node := f[3 * node] + v.x][3 * node + 1 := f[3 * node + 1] + v.y][3 * node + 2 := f[3 * node + 2] + v.z]
  }

  /** A traction's share for each corner. */
  function CornerForce(traction: Vec3, area: real): Vec3 {
    Vec3(traction.x * area / 3.0, traction.y * area / 3.0, traction.z * area / 3.0)
  }

  function AddLoad(sqrt: real -> real, nodes: seq<Vec3>, f: Vector, load: Load): (r: Vector)
    requires LoadFits(load, |nodes|) && |f| == 3 * |nodes|
    ensures |r| == |f|
  {
    match load
    case NodalForce(node, force) => AddAtNode(f, node, force)
    case SurfaceTraction(a, b, c, traction) =>
      var share := CornerForce(traction, Moments.Area(sqrt, nodes[a], nodes[b], nodes[c]));
      AddAtNode(AddAtNode(AddAtNode(f, a, share), b, share), c, share)
  }

  ghost predicate LoadsFit(model: FeaModel) {
    forall k :: 0 <= k < |model.loads| ==> LoadFits(model.loads[k], |model.nodes|)
  }

  function ForcesTo(sqrt: real -> real, model: FeaModel, count: nat): (f: Vector)
    requires LoadsFit(model) && count <= |model.loads|
    ensures |f| == 3 * |model.nodes|
    decreases count
  {
    if count == 0 then seq(3 * |model.nodes|, _ => 0.0)
    else AddLoad(sqrt, model.nodes, ForcesTo(sqrt, model, count - 1), model.loads[count - 1])
  }

  function Forces(sqrt: real -> real, model: FeaModel): (f: Vector)
    requires LoadsFit(model)
    ensures |f| == 3 * |model.nodes|
  {
    ForcesTo(sqrt, model, |model.loads|)
  }

  method AddForce(forces: array<real>, node: nat, v: Vec3)
    requires 3 * node + 2 < forces.Length
    modifies forces
    ensures forces[..] == AddAtNode(old(forces[..]), node, v)
  {
    for axis := 0 to 3
      invariant forall d :: 0 <= d < forces.Length && !(3 * node <= d < 3 * node + axis) ==> forces[d] == old(forces[d])
      invariant forall k :: 0 <= k < axis ==> forces[3 * node + k] == old(forces[3 * node + k]) + v.Axis(k)
    {
      forces[node * 3 + axis] := forces[node * 3 + axis] + v.Axis(axis);
    }
    assert forces[3 * node + 0] == old(forces[3 * node + 0]) + v.Axis(0);
    assert forces[3 * node + 1] == old(forces[3 * node + 1]) + v.Axis(1);
    assert forces[3 * node + 2] == old(forces[3 * node + 2]) + v.Axis(2);
  }

  method AssembleLoads(sqrt: real -> real, model: FeaModel, forces: array<real>)
    requires LoadsFit(model) && forces.Length == 3 * |model.nodes|
    requires forall d :: 0 <= d < forces.Length ==> forces[d] == 0.0
    modifies forces
    ensures forces[..] == Forces(sqrt, model)
  {
    hide AddAtNode, CornerForce, Moments.Area;
    assert forces[..] == ForcesTo(sqrt, model, 0);
    for k := 0 to |model.loads|
      invariant forces[..] == ForcesTo(sqrt, model, k)
    {
      assert LoadFits(model.loads[k], |model.nodes|);
      match model.loads[k] {
        case NodalForce(node, force) =>
          AddForce(forces, node, force);
        case SurfaceTraction(a, b, c, traction) =>
          var area := Moments.Area(sqrt, model.nodes[a], model.nodes[b], model.nodes[c]);
          var share := CornerForce(traction, area);
          AddForce(forces, a, share);
          AddForce(forces, b, share);
          AddForce(forces, c, share);
      }
    }
  }

  // ---------------------------------------------------------------- work of the loads

  function NodeValue(u: Vector, node: nat): Vec3
    requires 3 * node + 2 < |u|
  {
    Vec3(u[3 * node], u[3 * node + 1], u[3 * node + 2])
  }

  /** A linear field's mean over a triangle is the mean of its corners. */
  function Mean(a: Vec3, b: Vec3, c: Vec3): Vec3 {
    Vec3((a.x + b.x + c.x) / 3.0, (a.y + b.y + c.y) / 3.0, (a.z + b.z + c.z) / 3.0)
  }

  /** Traction times area on the mean displacement. */
  function SurfaceWork(traction: Vec3, area: real, mean: Vec3): real {
    area * Dot3(traction, mean)
  }

  /** The work a load does on the nodal displacements `u`: a force on its node,
      a traction on the mean displacement of its triangle. */
  function LoadWork(sqrt: real -> real, nodes: seq<Vec3>, load: Load, u: Vector): real
    requires LoadFits(load, |nodes|) && |u| == 3 * |nodes|
  {
    match load
    case NodalForce(node, force) => Dot3(force, NodeValue(u, node))
    case SurfaceTraction(a, b, c, traction) =>
      SurfaceWork(traction, Moments.Area(sqrt, nodes[a], nodes[b], nodes[c]), Mean(NodeValue(u, a), NodeValue(u, b), NodeValue(u, c)))
  }

  lemma AxisShares(t: real, area: real, a: real, b: real, c: real)
    ensures t * area / 3.0 * a + t * area / 3.0 * b + t * area / 3.0 * c == area * (t * ((a + b + c) / 3.0))
  {
  }

  /** Equal shares at the corners do the work of the whole on the mean. */
  lemma CornersDoTheWork(traction: Vec3, area: real, a: Vec3, b: Vec3, c: Vec3)
    ensures var share := CornerForce(traction, area);
            Dot3(share, a) + Dot3(share, b) + Dot3(share, c) == SurfaceWork(traction, area, Mean(a, b, c))
  {
    AxisShares(traction.x, area, a.x, b.x, c.x);
    AxisShares(traction.y, area, a.y, b.y, c.y);
    AxisShares(traction.z, area, a.z, b.z, c.z);
    var mean := Mean(a, b, c);
    Distribute(area, traction.x * mean.x, traction.y * mean.y, traction.z * mean.z);
  }

  lemma Distribute(f: real, x: real, y: real, z: real)
    ensures f * (x + y + z) == f * x + f * y + f * z
  {
  }

  function WorkTo(sqrt: real -> real, model: FeaModel, count: nat, u: Vector): real
    requires LoadsFit(model) && count <= |model.loads| && |u| == 3 * |model.nodes|
    decreases count
  {
    if count == 0 then 0.0 else WorkTo(sqrt, model, count - 1, u) + LoadWork(sqrt, model.nodes, model.loads[count - 1], u)
  }

  lemma AddAtNodeWork(f: Vector, node: nat, v: Vec3, u: Vector)
    requires 3 * node + 2 < |f| == |u|
    ensures Dot(AddAtNode(f, node, v), u) == Dot(f, u) + Dot3(v, NodeValue(u, node))
  {
    var n, d := |f|, 3 * node;
    var f1 := f[d := f[d] + v.x];
    var f2 := f1[d + 1 := f[d + 1] + v.y];
    DotRangeUpdate(f, u, d, f[d] + v.x, 0, n);
    DotRangeUpdate(f1, u, d + 1, f[d + 1] + v.y, 0, n);
    DotRangeUpdate(f2, u, d + 2, f[d + 2] + v.z, 0, n);
  }

  lemma AddShares(f: Vector, a: nat, b: nat, c: nat, share: Vec3, u: Vector)
    requires |f| == |u| && 3 * a + 2 < |f| && 3 * b + 2 < |f| && 3 * c + 2 < |f|
    ensures Dot(AddAtNode(AddAtNode(AddAtNode(f, a, share), b, share), c, share), u)
         == Dot(f, u) + (Dot3(share, NodeValue(u, a)) + Dot3(share, NodeValue(u, b)) + Dot3(share, NodeValue(u, c)))
  {
    hide Dot, Dot3, AddAtNode, NodeValue;
    AddAtNodeWork(f, a, share, u);
    AddAtNodeWork(AddAtNode(f, a, share), b, share, u);
    AddAtNodeWork(AddAtNode(AddAtNode(f, a, share), b, share), c, share, u);
  }

  lemma AddLoadWork(sqrt: real -> real, nodes: seq<Vec3>, f: Vector, load: Load, u: Vector)
    requires LoadFits(load, |nodes|) && |f| == |u| == 3 * |nodes|
    ensures Dot(AddLoad(sqrt, nodes, f, load), u) == Dot(f, u) + LoadWork(sqrt, nodes, load, u)
  {
    hide Dot, Dot3, CornerForce, AddAtNode, Moments.Area, NodeValue, SurfaceWork, Mean;
    match load
    case NodalForce(node, force) =>
      AddAtNodeWork(f, node, force, u);
    case SurfaceTraction(a, b, c, traction) =>
      var area := Moments.Area(sqrt, nodes[a], nodes[b], nodes[c]);
      AddShares(f, a, b, c, CornerForce(traction, area), u);
      CornersDoTheWork(traction, area, NodeValue(u, a), NodeValue(u, b), NodeValue(u, c));
  }

  /** The force vector is dual to the loads: on every displacement it does the
      work of the loads, no more and no less. */
  lemma {:induction false} ForcesToWork(sqrt: real -> real, model: FeaModel, count: nat, u: Vector)
    requires LoadsFit(model) && count <= |model.loads| && |u| == 3 * |model.nodes|
    ensures Dot(ForcesTo(sqrt, model, count), u) == WorkTo(sqrt, model, count, u)
    decreases count
  {
    if count == 0 {
      DotRangeZero(ForcesTo(sqrt, model, 0), u, 0, |u|);
    } else {
      hide Dot, AddLoad, LoadWork;
      ForcesToWork(sqrt, model, count - 1, u);
      AddLoadWork(sqrt, model.nodes, ForcesTo(sqrt, model, count - 1), model.loads[count - 1], u);
    }
  }

  // ---------------------------------------------------------------- nodal vectors

  function Flatten(vs: seq<Vec3>): (v: Vector)
    ensures |v| == 3 * |vs|
  {
    seq(3 * |vs|, d requires 0 <= d < 3 * |vs| => vs[d / 3].Axis(d % 3))
  }

  function Chunk(v: Vector): (vs: seq<Vec3>)
    requires |v| % 3 == 0
    ensures 3 * |vs| == |v|
  {
    seq(|v| / 3, k requires 0 <= k < |v| / 3 => NodeValue(v, k))
  }

  lemma FlattenChunk(v: Vector)
    requires |v| % 3 == 0
    ensures Flatten(Chunk(v)) == v
  {
    forall d | 0 <= d < |v|
      ensures Flatten(Chunk(v))[d] == v[d]
    {
      assert Chunk(v)[d / 3] == NodeValue(v, d / 3);
    }
  }

  /** Sum of the entries below `hi` that belong to one axis. */
  function AxisSum(v: Vector, axis: nat, hi: nat): real
    requires hi <= |v|
    decreases hi
  {
    if hi == 0 then 0.0
    else AxisSum(v, axis, hi - 1) + (if (hi - 1) % 3 == axis then v[hi - 1] else 0.0)
  }

  method VectorSum(v: Vector) returns (sum: Vec3)
    ensures sum == Vec3(AxisSum(v, 0, |v|), AxisSum(v, 1, |v|), AxisSum(v, 2, |v|))
  {
    sum := Vec3(0.0, 0.0, 0.0);
    for d := 0 to |v|
      invariant sum == Vec3(AxisSum(v, 0, d), AxisSum(v, 1, d), AxisSum(v, 2, d))
    {
      if d % 3 == 0 {
        sum := sum.(x := sum.x + v[d]);
      } else if d % 3 == 1 {
        sum := sum.(y := sum.y + v[d]);
      } else {
        sum := sum.(z := sum.z + v[d]);
      }
    }
  }

  function SumTo(vs: seq<Vec3>, hi: nat): Vec3
    requires hi <= |vs|
    decreases hi
  {
    if hi == 0 then Vec3(0.0, 0.0, 0.0) else Add(SumTo(vs, hi - 1), vs[hi - 1])
  }

  lemma AxisSumStep(v: Vector, axis: nat, k: nat)
    requires axis < 3 && 3 * k + 3 <= |v|
    ensures AxisSum(v, axis, 3 * k + 3) == AxisSum(v, axis, 3 * k) + v[3 * k + axis]
  {
    var d := 3 * k;
    assert d % 3 == 0 && (d + 1) % 3 == 1 && (d + 2) % 3 == 2;
    assert AxisSum(v, axis, d + 1) == AxisSum(v, axis, d) + (if axis == 0 then v[d] else 0.0);
    assert AxisSum(v, axis, d + 2) == AxisSum(v, axis, d + 1) + (if axis == 1 then v[d + 1] else 0.0);
  }

  lemma {:induction false} SumIsAxisSums(vs: seq<Vec3>, hi: nat)
    requires hi <= |vs|
    ensures SumTo(vs, hi) == Vec3(AxisSum(Flatten(vs), 0, 3 * hi), AxisSum(Flatten(vs), 1, 3 * hi), AxisSum(Flatten(vs), 2, 3 * hi))
    decreases hi
  {
    hide AxisSum;
    if hi > 0 {
      SumIsAxisSums(vs, hi - 1);
      var v, k := Flatten(vs), hi - 1;
      assert v[3 * k] == vs[k].x && v[3 * k + 1] == vs[k].y && v[3 * k + 2] == vs[k].z;
      AxisSumStep(v, 0, k);
      AxisSumStep(v, 1, k);
      AxisSumStep(v, 2, k);
    } else {
      NoAxisSum(Flatten(vs));
    }
  }

  lemma NoAxisSum(v: Vector)
    ensures forall axis: nat :: AxisSum(v, axis, 0) == 0.0
  {
  }

  predicate IsZero(h: Mat3) {
    h.r0 == h.r1 == h.r2 == Vec3(0.0, 0.0, 0.0)
  }

  function AxisUnit(axis: nat): Vec3
    requires axis < 3
  {
    if axis == 0 then Vec3(1.0, 0.0, 0.0) else if axis == 1 then Vec3(0.0, 1.0, 0.0) else Vec3(0.0, 0.0, 1.0)
  }

  /** With a zero gradient every node moves by `t`. */
  lemma TranslationEntry(nodes: seq<Vec3>, h: Mat3, t: Vec3, d: nat)
    requires IsZero(h) && d < 3 * |nodes|
    ensures AffineVector(nodes, h, t)[d] == t.Axis(d % 3)
  {
    assert AffineDisplacement(h, t, nodes[d / 3]) == t;
  }

  /** A unit translation picks out one axis of a nodal vector. */
  lemma {:induction false} TranslationDot(nodes: seq<Vec3>, h: Mat3, axis: nat, v: Vector, hi: nat)
    requires IsZero(h) && axis < 3 && hi <= |v| == 3 * |nodes|
    ensures DotRange(AffineVector(nodes, h, AxisUnit(axis)), v, 0, hi) == AxisSum(v, axis, hi)
    decreases hi
  {
    hide AffineVector;
    if hi > 0 {
      TranslationDot(nodes, h, axis, v, hi - 1);
      TranslationEntry(nodes, h, AxisUnit(axis), hi - 1);
      assert AxisUnit(axis).Axis((hi - 1) % 3) == if (hi - 1) % 3 == axis then 1.0 else 0.0;
    }
  }

  lemma TranslationSum(nodes: seq<Vec3>, h: Mat3, axis: nat, v: Vector)
    requires IsZero(h) && axis < 3 && |v| == 3 * |nodes|
    ensures Dot(AffineVector(nodes, h, AxisUnit(axis)), v) == AxisSum(v, axis, |v|)
  {
    TranslationDot(nodes, h, axis, v, |v|);
    hide AxisSum, DotRange, AffineVector;
  }
}
