/** Accumulated moments of a mesh level, and the comparison between levels. */
module Refinement {
  import opened Results
  import opened RealVectors
  import opened Linalg
  import opened FeaTypes
  import opened Moments
  import Loads

  // ---------------------------------------------------------------- the accumulator

  lemma SegmentSum(a: Vec3, b: Vec3, axis: nat)
    requires axis < 3
    ensures Sum([a, b], axis) == a.Axis(axis) + b.Axis(axis)
  {
    var empty: seq<Vec3> := [];
    assert [a, b][..1] == [a] && [a][..0] == empty;
    assert Sum([a], axis) == Sum(empty, axis) + a.Axis(axis);
  }

  lemma SegmentDiagonal(a: Vec3, b: Vec3, axis: nat, other: nat)
    requires axis < 3 && other < 3
    ensures Diagonal([a, b], axis, other) == a.Axis(axis) * a.Axis(other) + b.Axis(axis) * b.Axis(other)
  {
    var empty: seq<Vec3> := [];
    assert [a, b][..1] == [a] && [a][..0] == empty;
    assert Diagonal([a], axis, other) == Diagonal(empty, axis, other) + a.Axis(axis) * a.Axis(other);
  }

  lemma SegmentEntries(measure: real, a: Vec3, b: Vec3, axis: nat, other: nat)
    requires axis < 3 && other < 3
    ensures FirstEntry(measure, [a, b], axis) == measure * (a.Axis(axis) + b.Axis(axis)) / 2.0
    ensures SecondEntry(measure, [a, b], axis, other)
         == measure * (2.0 * a.Axis(axis) * a.Axis(other) + a.Axis(axis) * b.Axis(other)
                       + b.Axis(axis) * a.Axis(other) + 2.0 * b.Axis(axis) * b.Axis(other)) / 6.0
  {
    hide Sum, Diagonal;
    SegmentSum(a, b, axis);
    SegmentSum(a, b, other);
    SegmentDiagonal(a, b, axis, other);
    SegmentProduct(a.Axis(axis), b.Axis(axis), a.Axis(other), b.Axis(other));
  }

  lemma SegmentProduct(x0: real, x1: real, y0: real, y1: real)
    ensures (x0 + x1) * (y0 + y1) + (x0 * y0 + x1 * y1) == 2.0 * x0 * y0 + x0 * y1 + x1 * y0 + 2.0 * x1 * y1
  {
  }

  function FirstShare(measure: real, sum: real, divisor: real): real
    requires divisor != 0.0
  {
    measure * sum / divisor
  }

  lemma FirstEntryIs(measure: real, vs: seq<Vec3>, axis: nat, sum: real, n: real)
    requires |vs| > 0 && axis < 3 && sum == Sum(vs, axis) && n == |vs| as real
    ensures FirstEntry(measure, vs, axis) == FirstShare(measure, sum, n)
  {
    hide Sum;
  }

  lemma SecondEntryIs(measure: real, vs: seq<Vec3>, axis: nat, other: nat, quadratic: real, divisor: real)
    requires |vs| > 0 && axis < 3 && other < 3 && divisor == (|vs| * (|vs| + 1)) as real
    requires quadratic == Quadratic(vs, axis, other)
    ensures SecondEntry(measure, vs, axis, other) == measure * quadratic / divisor
  {
    hide Quadratic;
  }

  function Weighted(measure: real, weight: real): real {
    measure * weight
  }

  /** A running total of measure, first and second moments. */
  class GeometricMoments {
    var measure: real
    var first: seq<real>
    var second: seq<real>

    ghost predicate Valid()
      reads this
    {
      |first| == 3 && |second| == 9
    }

    ghost function Value(): (m: Moment)
      requires Valid()
      reads this
      ensures IsMoment(m)
    {
      Moment(measure, first, second)
    }

    constructor ()
      ensures Valid() && Value() == ZERO_MOMENT
    {
      measure := 0.0;
      first := [0.0, 0.0, 0.0];
      second := [0.0, 0.0, 0.0, 0.0, 0.0, 0.0, 0.0, 0.0, 0.0];
    }

    method AddWeightedSegment(sqrt: real -> real, a: Vec3, b: Vec3, weight: real)
      requires Valid()
      modifies this
      ensures Valid()
      ensures Value() == Plus(old(Value()), SimplexMoment(Weighted(Measure(sqrt, [a, b]), weight), [a, b]))
    {
      hide Measure, FirstEntry, SecondEntry;
      var added := Weighted(Measure(sqrt, [a, b]), weight);
      measure := measure + added;
      for axis := 0 to 3
        invariant Valid() && measure == old(measure) + added
        invariant forall i :: 0 <= i < 3 ==> first[i] == old(first)[i] + (if i < axis then FirstEntry(added, [a, b], i) else 0.0)
        invariant forall k :: 0 <= k < 9 ==>
                                second[k] == old(second)[k] + (if k < 3 * axis then SecondEntry(added, [a, b], k / 3, k % 3) else 0.0)
      {
        SegmentEntries(added, a, b, axis, 0);
        first := first[axis := first[axis] + added * (a.Axis(axis) + b.Axis(axis)) / 2.0];
        for other := 0 to 3
          invariant Valid() && measure == old(measure) + added
          invariant forall i :: 0 <= i < 3 ==> first[i] == old(first)[i] + (if i < axis + 1 then FirstEntry(added, [a, b], i) else 0.0)
          invariant forall k :: 0 <= k < 9 ==>
                                  second[k] == old(second)[k] + (if k < 3 * axis + other then SecondEntry(added, [a, b], k / 3, k % 3) else 0.0)
        {
          SegmentEntries(added, a, b, axis, other);
          var at := axis * 3 + other;
          assert at / 3 == axis && at % 3 == other;
          second := second[at := second[at] + added * (2.0 * a.Axis(axis) * a.Axis(other) + a.Axis(axis) * b.Axis(other)
                                                      + b.Axis(axis) * a.Axis(other) + 2.0 * b.Axis(axis) * b.Axis(other)) / 6.0];
        }
      }
    }

    method AddTriangle(sqrt: real -> real, a: Vec3, b: Vec3, c: Vec3)
      requires Valid()
      modifies this
      ensures Valid()
      ensures Value() == Plus(old(Value()), SimplexMoment(Measure(sqrt, [a, b, c]), [a, b, c]))
    {
      AddVertices(Measure(sqrt, [a, b, c]), [a, b, c], 3.0, 12.0);
    }

    method AddTetrahedron(sqrt: real -> real, vs: seq<Vec3>)
      requires Valid() && |vs| == 4
      modifies this
      ensures Valid()
      ensures Value() == Plus(old(Value()), SimplexMoment(Measure(sqrt, vs), vs))
    {
      AddVertices(Measure(sqrt, vs), vs, 4.0, 20.0);
    }

    /** The loops that triangles and tetrahedra share. */
    method AddVertices(added: real, vs: seq<Vec3>, firstDivisor: real, secondDivisor: real)
      requires Valid() && |vs| > 0
      requires firstDivisor == |vs| as real && secondDivisor == (|vs| * (|vs| + 1)) as real
      modifies this
      ensures Valid()
      ensures Value() == Plus(old(Value()), SimplexMoment(added, vs))
    {
      hide Sum, Diagonal, FirstEntry, SecondEntry, FirstShare;
      measure := measure + added;
      for axis := 0 to 3
        invariant Valid() && measure == old(measure) + added
        invariant forall i :: 0 <= i < 3 ==> first[i] == old(first)[i] + (if i < axis then FirstEntry(added, vs, i) else 0.0)
        invariant forall k :: 0 <= k < 9 ==>
                                second[k] == old(second)[k] + (if k < 3 * axis then SecondEntry(added, vs, k / 3, k % 3) else 0.0)
      {
        FirstEntryIs(added, vs, axis, Sum(vs, axis), firstDivisor);
        var value := FirstShare(added, Sum(vs, axis), firstDivisor);
        first := first[axis := first[axis] + value];
        AddSecondRow(added, vs, axis, secondDivisor);
      }
    }

    method AddSecondRow(added: real, vs: seq<Vec3>, axis: nat, divisor: real)
      requires Valid() && |vs| > 0 && axis < 3
      requires divisor == (|vs| * (|vs| + 1)) as real
      modifies this`second
      ensures Valid()
      ensures forall k :: 0 <= k < 9 ==>
                            second[k] == old(second)[k] + (if 3 * axis <= k < 3 * axis + 3 then SecondEntry(added, vs, k / 3, k % 3) else 0.0)
    {
      hide Sum, Diagonal, SecondEntry, FirstEntry;
      var sum := Sum(vs, axis);
      for other := 0 to 3
        invariant |second| == 9
        invariant forall k :: 0 <= k < 9 ==>
                                second[k] == old(second)[k] + (if 3 * axis <= k < 3 * axis + other then SecondEntry(added, vs, k / 3, k % 3) else 0.0)
      {
        var at := axis * 3 + other;
        assert at / 3 == axis && at % 3 == other;
        var quadratic := sum * Sum(vs, other) + Diagonal(vs, axis, other);
        var value := added * quadratic / divisor;
        SecondEntryIs(added, vs, axis, other, quadratic, divisor);
        assert value == SecondEntry(added, vs, at / 3, at % 3);
        second := second[at := second[at] + value];
      }
    }
  }

  // ---------------------------------------------------------------- totals by key

  /** A simplex of the mesh, counted under `key` with a weight. */
  datatype Cell<K> = Cell(key: K, weight: real, vs: seq<Vec3>)

  predicate IsCell<K>(c: Cell<K>) {
    2 <= |c.vs| <= 4
  }

  /** One entry per element or load; a load without a surface has no cell. */
  type Slot<K> = Option<Cell<K>>

  ghost predicate AllCells<K>(cells: seq<Slot<K>>) {
    forall c :: 0 <= c < |cells| ==> cells[c].Some? ==> IsCell(cells[c].value)
  }

  predicate HasKey<K(==)>(slot: Slot<K>, key: K) {
    slot.Some? && slot.value.key == key
  }

  function CellMoment<K>(sqrt: real -> real, c: Cell<K>): (m: Moment)
    requires IsCell(c)
    ensures IsMoment(m)
  {
    SimplexMoment(Weighted(Measure(sqrt, c.vs), c.weight), c.vs)
  }

  /** The moments of the first `count` cells under one key. */
  ghost function Total<K>(sqrt: real -> real, cells: seq<Slot<K>>, key: K, count: nat): (m: Moment)
    requires AllCells(cells) && count <= |cells|
    ensures IsMoment(m)
    decreases count
  {
    if count == 0 then ZERO_MOMENT
    else if HasKey(cells[count - 1], key) then Plus(Total(sqrt, cells, key, count - 1), CellMoment(sqrt, cells[count - 1].value))
    else Total(sqrt, cells, key, count - 1)
  }

  ghost predicate Used<K>(cells: seq<Slot<K>>, key: K, count: nat)
    requires count <= |cells|
  {
    exists c :: 0 <= c < count && HasKey(cells[c], key)
  }

  /** `moments` holds the total of every key in use. */
  ghost predicate Tallies<K(!new)>(sqrt: real -> real, cells: seq<Slot<K>>, count: nat, moments: map<K, Moment>)
    requires AllCells(cells) && count <= |cells|
  {
    && (forall key :: key in moments <==> Used(cells, key, count))
    && (forall key :: key in moments ==> moments[key] == Total(sqrt, cells, key, count))
  }

  lemma PlusAssociative(a: Moment, b: Moment, c: Moment)
    requires IsMoment(a) && IsMoment(b) && IsMoment(c)
    ensures Plus(Plus(a, b), c) == Plus(a, Plus(b, c))
    ensures Plus(Plus(a, b), c) == Plus(Plus(a, c), b)
  {
  }

  // ---------------------------------------------------------------- cutting one cell

  /** The two halves of `c`, cut at the fraction s of the edge from i to j. */
  function Near<K>(c: Cell<K>, i: nat, j: nat, s: real): (r: Cell<K>)
    requires i < |c.vs| && j < |c.vs|
  {
    c.(vs := c.vs[j := Between(c.vs[i], c.vs[j], s)])
  }

  function Far<K>(c: Cell<K>, i: nat, j: nat, s: real): (r: Cell<K>)
    requires i < |c.vs| && j < |c.vs|
  {
    c.(vs := c.vs[i := Between(c.vs[i], c.vs[j], s)])
  }

  lemma CutCell<K>(sqrt: real -> real, c: Cell<K>, i: nat, j: nat, s: real)
    requires IsSqrt(sqrt) && IsCell(c) && i < |c.vs| && j < |c.vs| && i != j && 0.0 <= s <= 1.0
    ensures IsCell(Near(c, i, j, s)) && IsCell(Far(c, i, j, s))
    ensures Plus(CellMoment(sqrt, Near(c, i, j, s)), CellMoment(sqrt, Far(c, i, j, s))) == CellMoment(sqrt, c)
  {
    hide Measure, SimplexMoment, Between, IsSqrt, Plus, Weighted;
    var p, m := Between(c.vs[i], c.vs[j], s), Measure(sqrt, c.vs);
    var whole := Weighted(m, c.weight);
    MeasureCut(sqrt, c.vs, i, j, s);
    MeasureCut(sqrt, c.vs, j, i, 1.0 - s);
    BetweenReversed(c.vs[i], c.vs[j], s);
    CutMoment(whole, c.vs, i, j, s);
    Weigh(s, m, c.weight, Measure(sqrt, c.vs[j := p]));
    Weigh(1.0 - s, m, c.weight, Measure(sqrt, c.vs[i := p]));
    MomentAt(Weighted(Measure(sqrt, c.vs[j := p]), c.weight), s * whole, c.vs[j := p]);
    MomentAt(Weighted(Measure(sqrt, c.vs[i := p]), c.weight), (1.0 - s) * whole, c.vs[i := p]);
  }

  lemma MomentAt(x: real, y: real, vs: seq<Vec3>)
    requires x == y && |vs| > 0
    ensures SimplexMoment(x, vs) == SimplexMoment(y, vs)
  {
  }

  lemma Weigh(s: real, m: real, w: real, part: real)
    requires part == s * m
    ensures Weighted(part, w) == s * Weighted(m, w)
  {
  }

  /** `after` is `before` with cell `e` cut in two. */
  ghost predicate CellCut<K>(before: seq<Slot<K>>, after: seq<Slot<K>>, e: nat, i: nat, j: nat, s: real) {
    && e < |before| && before[e].Some?
    && var cell := before[e].value;
    && i < |cell.vs| && j < |cell.vs| && i != j && 0.0 <= s <= 1.0
    && after == before[e := Some(Near(cell, i, j, s))] + [Some(Far(cell, i, j, s))]
  }

  lemma {:induction false} CutTotalTo<K>(sqrt: real -> real, before: seq<Slot<K>>, after: seq<Slot<K>>, e: nat, i: nat, j: nat, s: real,
                                         key: K, count: nat)
    requires IsSqrt(sqrt) && AllCells(before) && AllCells(after) && CellCut(before, after, e, i, j, s) && count <= |before|
    ensures count <= e ==> Total(sqrt, after, key, count) == Total(sqrt, before, key, count)
    ensures count > e && HasKey(before[e], key) ==>
              Plus(Total(sqrt, after, key, count), CellMoment(sqrt, Far(before[e].value, i, j, s))) == Total(sqrt, before, key, count)
    ensures count > e && !HasKey(before[e], key) ==> Total(sqrt, after, key, count) == Total(sqrt, before, key, count)
    decreases count
  {
    hide Plus, CellMoment, Between, IsSqrt;
    if count > 0 {
      CutTotalTo(sqrt, before, after, e, i, j, s, key, count - 1);
      var near, far := Near(before[e].value, i, j, s), Far(before[e].value, i, j, s);
      if count - 1 == e {
        if HasKey(before[e], key) {
          CutCell(sqrt, before[e].value, i, j, s);
          PlusAssociative(Total(sqrt, after, key, e), CellMoment(sqrt, near), CellMoment(sqrt, far));
        }
      } else {
        assert after[count - 1] == before[count - 1];
        if count - 1 > e && HasKey(before[e], key) && HasKey(before[count - 1], key) {
          PlusAssociative(Total(sqrt, after, key, count - 1), CellMoment(sqrt, before[count - 1].value), CellMoment(sqrt, far));
        }
      }
    }
  }

  /** Cutting a cell changes no total. */
  lemma {:induction false} CutTotal<K>(sqrt: real -> real, before: seq<Slot<K>>, after: seq<Slot<K>>, e: nat, i: nat, j: nat, s: real, key: K)
    requires IsSqrt(sqrt) && AllCells(before) && AllCells(after) && CellCut(before, after, e, i, j, s)
    ensures Total(sqrt, after, key, |after|) == Total(sqrt, before, key, |before|)
    ensures Used(after, key, |after|) <==> Used(before, key, |before|)
  {
    hide Plus, CellMoment, Between, IsSqrt, Used;
    CutTotalTo(sqrt, before, after, e, i, j, s, key, |before|);
    CutUsed(before, after, e, i, j, s, key);
    assert |after| == |before| + 1 && after[|before|] == Some(Far(before[e].value, i, j, s));
    hide Near;
  }

  lemma CutUsed<K>(before: seq<Slot<K>>, after: seq<Slot<K>>, e: nat, i: nat, j: nat, s: real, key: K)
    requires CellCut(before, after, e, i, j, s)
    ensures Used(after, key, |after|) <==> Used(before, key, |before|)
  {
    hide Between;
    var n := |before|;
    assert HasKey(after[e], key) <==> HasKey(before[e], key);
    assert HasKey(after[n], key) <==> HasKey(before[e], key);
    if Used(after, key, |after|) {
      var c :| 0 <= c < |after| && HasKey(after[c], key);
      assert HasKey(before[if c == n then e else c], key);
    }
    if Used(before, key, n) {
      var c :| 0 <= c < n && HasKey(before[c], key);
      assert HasKey(after[c], key);
    }
  }

  // ---------------------------------------------------------------- mesh levels

  function ElementCell(nodes: seq<Vec3>, kind: ElementKind): (c: Cell<nat>)
    requires kind.InRange(|nodes|)
    ensures IsCell(c)
  {
    match kind
    case LinearTruss2(a, b, id, area) => Cell(id, area, [nodes[a], nodes[b]])
    case LinearTetrahedron4(a, b, c, d, id) => Cell(id, 1.0, [nodes[a], nodes[b], nodes[c], nodes[d]])
  }

  ghost predicate InRange(model: FeaModel) {
    forall e :: 0 <= e < |model.elements| ==> model.elements[e].kind.InRange(|model.nodes|)
  }

  function ElementCells(model: FeaModel): (cells: seq<Slot<nat>>)
    requires InRange(model)
    ensures AllCells(cells) && |cells| == |model.elements|
  {
    seq(|model.elements|, e requires 0 <= e < |model.elements| => Some(ElementCell(model.nodes, model.elements[e].kind)))
  }

  /** A load's triangle, counted under its traction. */
  function LoadCell(nodes: seq<Vec3>, load: Load): (slot: Slot<Vec3>)
    requires Loads.LoadFits(load, |nodes|)
    ensures slot.Some? ==> IsCell(slot.value)
  {
    match load
    case NodalForce(_, _) => None
    case SurfaceTraction(a, b, c, traction) => Some(Cell(traction, 1.0, [nodes[a], nodes[b], nodes[c]]))
  }

  function TractionCells(model: FeaModel): (cells: seq<Slot<Vec3>>)
    requires Loads.LoadsFit(model)
    ensures AllCells(cells) && |cells| == |model.loads|
  {
    seq(|model.loads|, k requires 0 <= k < |model.loads| => LoadCell(model.nodes, model.loads[k]))
  }

  function NodalForceOf(nodes: seq<Vec3>, load: Load): multiset<(Vec3, Vec3)>
    requires Loads.LoadFits(load, |nodes|)
  {
    match load
    case NodalForce(node, force) => multiset{(nodes[node], force)}
    case SurfaceTraction(_, _, _, _) => multiset{}
  }

  /** Position and value of every nodal force, in any order. */
  function NodalForces(nodes: seq<Vec3>, loads: seq<Load>): multiset<(Vec3, Vec3)>
    requires forall k :: 0 <= k < |loads| ==> Loads.LoadFits(loads[k], |nodes|)
  {
    if |loads| == 0 then multiset{}
    else NodalForces(nodes, loads[..|loads| - 1]) + NodalForceOf(nodes, loads[|loads| - 1])
  }

  /** A traction with its k-th corner replaced. */
  function WithCorner(load: Load, k: nat, node: nat): Load
    requires load.SurfaceTraction? && k < 3
  {
    if k == 0 then load.(a := node) else if k == 1 then load.(b := node) else load.(c := node)
  }

  function Corner(load: Load, k: nat): nat
    requires load.SurfaceTraction? && k < 3
  {
    if k == 0 then load.a else if k == 1 then load.b else load.c
  }

  /** `kind` with its k-th node replaced. */
  function WithNode(kind: ElementKind, k: nat, node: nat): ElementKind
    requires k < |kind.Nodes()|
  {
    match kind
    case LinearTruss2(a, b, id, area) =>
      if k == 0 then LinearTruss2(node, b, id, area) else LinearTruss2(a, node, id, area)
    case LinearTetrahedron4(a, b, c, d, id) =>
      if k == 0 then LinearTetrahedron4(node, b, c, d, id)
      else if k == 1 then LinearTetrahedron4(a, node, c, d, id)
      else if k == 2 then LinearTetrahedron4(a, b, node, d, id)
      else LinearTetrahedron4(a, b, c, node, id)
  }

  /** One step of refinement: a new node, or an element or a loaded triangle
      cut at a node that lies on one of its edges. Ids, materials and
      constraints are free. */
  datatype Step =
    | NewNode(position: Vec3)
    | CutElement(e: nat, i: nat, j: nat, node: nat, s: real, nearId: nat, farId: nat)
    | CutTraction(load: nat, i: nat, j: nat, node: nat, s: real)

  ghost predicate Refines(model: FeaModel, step: Step, refined: FeaModel) {
    match step
    case NewNode(position) =>
      refined.nodes == model.nodes + [position] && refined.elements == model.elements && refined.loads == model.loads
    case CutElement(e, i, j, node, s, nearId, farId) =>
      && refined.nodes == model.nodes && refined.loads == model.loads
      && e < |model.elements| && node < |model.nodes| && 0.0 <= s <= 1.0
      && model.elements[e].kind.InRange(|model.nodes|)
      && var kind := model.elements[e].kind;
      && i < |kind.Nodes()| && j < |kind.Nodes()| && i != j
      && kind.Nodes()[i] < |model.nodes| && kind.Nodes()[j] < |model.nodes|
      && model.nodes[node] == Between(model.nodes[kind.Nodes()[i]], model.nodes[kind.Nodes()[j]], s)
      && refined.elements == model.elements[e := Element(nearId, WithNode(kind, j, node))] + [Element(farId, WithNode(kind, i, node))]
    case CutTraction(k, i, j, node, s) =>
      && refined.nodes == model.nodes && refined.elements == model.elements
      && k < |model.loads| && node < |model.nodes| && i < 3 && j < 3 && i != j && 0.0 <= s <= 1.0
      && var load := model.loads[k];
      && load.SurfaceTraction? && Loads.LoadFits(load, |model.nodes|)
      && model.nodes[node] == Between(model.nodes[Corner(load, i)], model.nodes[Corner(load, j)], s)
      && refined.loads == model.loads[k := WithCorner(load, j, node)] + [WithCorner(load, i, node)]
  }

  lemma StepKeepsTotals(sqrt: real -> real, model: FeaModel, step: Step, refined: FeaModel, key: nat)
    requires IsSqrt(sqrt) && InRange(model) && Refines(model, step, refined)
    ensures InRange(refined)
    ensures Total(sqrt, ElementCells(refined), key, |refined.elements|) == Total(sqrt, ElementCells(model), key, |model.elements|)
    ensures Used(ElementCells(refined), key, |refined.elements|) <==> Used(ElementCells(model), key, |model.elements|)
  {
    hide IsSqrt, Total, Used, Between;
    match step {
      case NewNode(position) =>
        assert ElementCells(refined) == ElementCells(model);
      case CutElement(e, i, j, node, s, _, _) =>
        var kind := model.elements[e].kind;
        WithNodeCell(model.nodes, kind, i, node);
        WithNodeCell(model.nodes, kind, j, node);
        assert InRange(refined);
        assert CellCut(ElementCells(model), ElementCells(refined), e, i, j, s);
        CutTotal(sqrt, ElementCells(model), ElementCells(refined), e, i, j, s, key);
      case CutTraction(_, _, _, _, _) =>
        assert ElementCells(refined) == ElementCells(model);
    }
  }

  lemma WithNodeCell(nodes: seq<Vec3>, kind: ElementKind, k: nat, node: nat)
    requires kind.InRange(|nodes|) && node < |nodes| && k < |kind.Nodes()|
    ensures WithNode(kind, k, node).InRange(|nodes|)
    ensures |ElementCell(nodes, kind).vs| == |kind.Nodes()|
    ensures kind.Nodes()[k] < |nodes| && ElementCell(nodes, kind).vs[k] == nodes[kind.Nodes()[k]]
    ensures ElementCell(nodes, WithNode(kind, k, node)) == ElementCell(nodes, kind).(vs := ElementCell(nodes, kind).vs[k := nodes[node]])
  {
  }

  // ---------------------------------------------------------------- loads of a level

  lemma {:induction false} NodalForcesSame(nodes: seq<Vec3>, nodes': seq<Vec3>, loads: seq<Load>, loads': seq<Load>)
    requires |loads| == |loads'|
    requires forall k :: 0 <= k < |loads| ==> Loads.LoadFits(loads[k], |nodes|)
    requires forall k :: 0 <= k < |loads| ==> Loads.LoadFits(loads'[k], |nodes'|)
    requires forall k :: 0 <= k < |loads| ==> NodalForceOf(nodes, loads[k]) == NodalForceOf(nodes', loads'[k])
    ensures NodalForces(nodes, loads) == NodalForces(nodes', loads')
    decreases |loads|
  {
    hide NodalForceOf, Loads.LoadFits;
    if |loads| > 0 {
      var n := |loads| - 1;
      NodalForcesSame(nodes, nodes', loads[..n], loads'[..n]);
    }
  }

  lemma WithCornerCell(nodes: seq<Vec3>, load: Load, k: nat, node: nat)
    requires Loads.LoadFits(load, |nodes|) && load.SurfaceTraction? && node < |nodes| && k < 3
    ensures WithCorner(load, k, node).SurfaceTraction? && Loads.LoadFits(WithCorner(load, k, node), |nodes|)
    ensures LoadCell(nodes, load).Some? && |LoadCell(nodes, load).value.vs| == 3
    ensures LoadCell(nodes, load).value.vs[k] == nodes[Corner(load, k)]
    ensures var cell := LoadCell(nodes, load).value;
            LoadCell(nodes, WithCorner(load, k, node)) == Some(cell.(vs := cell.vs[k := nodes[node]]))
  {
    var cell := LoadCell(nodes, load).value;
    var moved := LoadCell(nodes, WithCorner(load, k, node)).value;
    assert moved.vs == cell.vs[k := nodes[node]];
  }

  /** Cutting a loaded triangle cuts exactly its cell. */
  lemma CutTractionCells(model: FeaModel, k: nat, i: nat, j: nat, node: nat, s: real, refined: FeaModel)
    requires Loads.LoadsFit(model) && Refines(model, CutTraction(k, i, j, node, s), refined)
    ensures Loads.LoadsFit(refined)
    ensures CellCut(TractionCells(model), TractionCells(refined), k, i, j, s)
  {
    var load := model.loads[k];
    WithCornerCell(model.nodes, load, j, node);
    WithCornerCell(model.nodes, load, i, node);
    hide Between, LoadCell, Loads.LoadFits, WithCorner, Corner;
    assert Loads.LoadsFit(refined);
    var cell := LoadCell(model.nodes, load).value;
    var before, after := TractionCells(model), TractionCells(refined);
    assert before[k] == Some(cell);
    assert after[k] == Some(Near(cell, i, j, s));
    assert after[|before|] == Some(Far(cell, i, j, s));
    assert after == before[k := after[k]] + [after[|before|]];
  }

  /** Cutting a loaded triangle changes no nodal force. */
  lemma CutTractionForces(model: FeaModel, k: nat, i: nat, j: nat, node: nat, s: real, refined: FeaModel)
    requires Loads.LoadsFit(model) && Loads.LoadsFit(refined) && Refines(model, CutTraction(k, i, j, node, s), refined)
    ensures NodalForces(refined.nodes, refined.loads) == NodalForces(model.nodes, model.loads)
  {
    hide Between, NodalForces, Corner;
    var nodes, loads, n := model.nodes, model.loads, |model.loads|;
    var kept := refined.loads[..n];
    assert kept[k].SurfaceTraction? && refined.loads[n].SurfaceTraction?;
    hide Loads.LoadFits, WithCorner;
    NodalForcesSame(nodes, nodes, loads, kept);
    LastTraction(nodes, refined.loads);
  }

  lemma LastTraction(nodes: seq<Vec3>, loads: seq<Load>)
    requires |loads| > 0 && loads[|loads| - 1].SurfaceTraction?
    requires forall k :: 0 <= k < |loads| ==> Loads.LoadFits(loads[k], |nodes|)
    ensures NodalForces(nodes, loads) == NodalForces(nodes, loads[..|loads| - 1])
  {
  }

  lemma StepKeepsTractions(sqrt: real -> real, model: FeaModel, step: Step, refined: FeaModel, key: Vec3)
    requires IsSqrt(sqrt) && Loads.LoadsFit(model) && Refines(model, step, refined)
    ensures Loads.LoadsFit(refined)
    ensures Total(sqrt, TractionCells(refined), key, |refined.loads|) == Total(sqrt, TractionCells(model), key, |model.loads|)
    ensures Used(TractionCells(refined), key, |refined.loads|) <==> Used(TractionCells(model), key, |model.loads|)
    ensures NodalForces(refined.nodes, refined.loads) == NodalForces(model.nodes, model.loads)
  {
    hide IsSqrt, Total, Used, Between, NodalForces;
    match step {
      case NewNode(position) =>
        assert TractionCells(refined) == TractionCells(model);
        NodalForcesSame(model.nodes, refined.nodes, model.loads, model.loads);
      case CutElement(_, _, _, _, _, _, _) =>
        assert TractionCells(refined) == TractionCells(model);
      case CutTraction(k, i, j, node, s) =>
        CutTractionCells(model, k, i, j, node, s, refined);
        CutTractionForces(model, k, i, j, node, s, refined);
        CutTotal(sqrt, TractionCells(model), TractionCells(refined), k, i, j, s, key);
    }
  }

  /** A level reached from another by any number of steps. */
  ghost predicate RefinementChain(levels: seq<FeaModel>, steps: seq<Step>) {
    |levels| == |steps| + 1 && forall k :: 0 <= k < |steps| ==> Refines(levels[k], steps[k], levels[k + 1])
  }

  /** Every total of the last level is that of the first. */
  lemma {:induction false} ChainKeepsTotals(sqrt: real -> real, levels: seq<FeaModel>, steps: seq<Step>, key: nat)
    requires IsSqrt(sqrt) && RefinementChain(levels, steps) && InRange(levels[0])
    ensures var (coarse, fine) := (levels[0], levels[|steps|]);
            && InRange(fine)
            && Total(sqrt, ElementCells(fine), key, |fine.elements|) == Total(sqrt, ElementCells(coarse), key, |coarse.elements|)
            && (Used(ElementCells(fine), key, |fine.elements|) <==> Used(ElementCells(coarse), key, |coarse.elements|))
    decreases |steps|
  {
    hide IsSqrt, Total, Used, Refines, InRange;
    if |steps| > 0 {
      var n := |steps| - 1;
      ChainKeepsTotals(sqrt, levels[..n + 1], steps[..n], key);
      StepKeepsTotals(sqrt, levels[n], steps[n], levels[n + 1], key);
    }
  }

  /** The same for the tractions, and the nodal forces stay what they are. */
  lemma {:induction false} ChainKeepsTractions(sqrt: real -> real, levels: seq<FeaModel>, steps: seq<Step>, key: Vec3)
    requires IsSqrt(sqrt) && RefinementChain(levels, steps) && Loads.LoadsFit(levels[0])
    ensures var (coarse, fine) := (levels[0], levels[|steps|]);
            && Loads.LoadsFit(fine)
            && Total(sqrt, TractionCells(fine), key, |fine.loads|) == Total(sqrt, TractionCells(coarse), key, |coarse.loads|)
            && (Used(TractionCells(fine), key, |fine.loads|) <==> Used(TractionCells(coarse), key, |coarse.loads|))
    ensures NodalForces(levels[|steps|].nodes, levels[|steps|].loads) == NodalForces(levels[0].nodes, levels[0].loads)
    decreases |steps|
  {
    hide IsSqrt, Total, Used, Refines, Loads.LoadsFit, TractionCells, NodalForces;
    if |steps| > 0 {
      var n := |steps| - 1;
      ChainKeepsTractions(sqrt, levels[..n + 1], steps[..n], key);
      StepKeepsTractions(sqrt, levels[n], steps[n], levels[n + 1], key);
    }
  }

  // ---------------------------------------------------------------- the comparison

  predicate NearRelative(a: real, b: real) {
    Abs(a - b) <= ROUNDING * Max(Max(Abs(a), Abs(b)), 1.0)
  }

  predicate SameMoments(a: Moment, b: Moment)
    requires IsMoment(a) && IsMoment(b)
  {
    && NearRelative(a.measure, b.measure)
    && (forall i :: 0 <= i < 3 ==> NearRelative(a.first[i], b.first[i]))
    && (forall i :: 0 <= i < 9 ==> NearRelative(a.second[i], b.second[i]))
  }

  /** The check that a level has the moments of the first one, key by key. */
  ghost predicate SameDistribution<K(!new)>(candidate: map<K, Moment>, reference: map<K, Moment>)
    requires forall key :: key in candidate ==> IsMoment(candidate[key])
    requires forall key :: key in reference ==> IsMoment(reference[key])
  {
    && |candidate| == |reference|
    && forall key :: key in candidate ==> key in reference && SameMoments(candidate[key], reference[key])
  }

  lemma SameMomentsReflexive(m: Moment)
    requires IsMoment(m)
    ensures SameMoments(m, m)
  {
  }

  /** A refined level is never refused for its material distribution. */
  lemma RefinedLevelAccepted(sqrt: real -> real, levels: seq<FeaModel>, steps: seq<Step>,
                             reference: map<nat, Moment>, candidate: map<nat, Moment>)
    requires IsSqrt(sqrt) && RefinementChain(levels, steps) && InRange(levels[0]) && InRange(levels[|steps|])
    requires Tallies(sqrt, ElementCells(levels[0]), |levels[0].elements|, reference)
    requires Tallies(sqrt, ElementCells(levels[|steps|]), |levels[|steps|].elements|, candidate)
    ensures forall key :: key in reference ==> IsMoment(reference[key])
    ensures forall key :: key in candidate ==> IsMoment(candidate[key])
    ensures candidate == reference
    ensures SameDistribution(candidate, reference)
  {
    hide IsSqrt, Total, Used, InRange, RefinementChain, SameMoments;
    forall key: nat
      ensures key in candidate <==> key in reference
      ensures key in candidate ==> candidate[key] == reference[key]
    {
      ChainKeepsTotals(sqrt, levels, steps, key);
    }
    assert candidate == reference;
    forall key | key in candidate
      ensures SameMoments(candidate[key], reference[key])
    {
      SameMomentsReflexive(candidate[key]);
    }
  }

  /** Nor for its loads: the surface moments agree for every traction and the
      nodal forces are the same. */
  lemma RefinedLoadsAccepted(sqrt: real -> real, levels: seq<FeaModel>, steps: seq<Step>,
                             reference: map<Vec3, Moment>, candidate: map<Vec3, Moment>)
    requires IsSqrt(sqrt) && RefinementChain(levels, steps) && Loads.LoadsFit(levels[0]) && Loads.LoadsFit(levels[|steps|])
    requires Tallies(sqrt, TractionCells(levels[0]), |levels[0].loads|, reference)
    requires Tallies(sqrt, TractionCells(levels[|steps|]), |levels[|steps|].loads|, candidate)
    ensures candidate == reference && (forall key :: key in candidate ==> IsMoment(candidate[key]))
    ensures SameDistribution(candidate, reference)
    ensures NodalForces(levels[|steps|].nodes, levels[|steps|].loads) == NodalForces(levels[0].nodes, levels[0].loads)
  {
    hide IsSqrt, Total, Used, Loads.LoadsFit, RefinementChain, SameMoments, TractionCells, NodalForces;
    forall key: Vec3
      ensures key in candidate <==> key in reference
      ensures key in candidate ==> candidate[key] == reference[key]
    {
      ChainKeepsTractions(sqrt, levels, steps, key);
    }
    ChainKeepsTractions(sqrt, levels, steps, Vec3(0.0, 0.0, 0.0));
    assert candidate == reference;
    forall key | key in candidate
      ensures SameMoments(candidate[key], reference[key])
    {
      SameMomentsReflexive(candidate[key]);
    }
  }

  // ---------------------------------------------------------------- the distribution, accumulated

  method AddElement(sqrt: real -> real, nodes: seq<Vec3>, kind: ElementKind, moments: GeometricMoments)
    requires kind.InRange(|nodes|) && moments.Valid()
    modifies moments
    ensures moments.Valid()
    ensures moments.Value() == Plus(old(moments.Value()), CellMoment(sqrt, ElementCell(nodes, kind)))
  {
    hide Plus, SimplexMoment, Measure;
    ghost var cell := ElementCell(nodes, kind);
    match kind {
      case LinearTruss2(a, b, _, area) =>
        moments.AddWeightedSegment(sqrt, nodes[a], nodes[b], area);
      case LinearTetrahedron4(a, b, c, d, _) =>
        MomentAt(Weighted(Measure(sqrt, cell.vs), 1.0), Measure(sqrt, cell.vs), cell.vs);
        moments.AddTetrahedron(sqrt, [nodes[a], nodes[b], nodes[c], nodes[d]]);
    }
  }

  /** Moments per material, each in its own accumulator. */
  method MaterialDistribution(sqrt: real -> real, model: FeaModel) returns (distribution: map<nat, GeometricMoments>)
    requires InRange(model)
    ensures forall id :: id in distribution ==> fresh(distribution[id]) && distribution[id].Valid()
    ensures forall id :: id in distribution <==> Used(ElementCells(model), id, |model.elements|)
    ensures forall id :: id in distribution ==> distribution[id].Value() == Total(sqrt, ElementCells(model), id, |model.elements|)
  {
    hide Plus, CellMoment, ElementCell, Used;
    distribution := map[];
    ghost var cells := ElementCells(model);
    NoneUsed(cells);
    for e := 0 to |model.elements|
      invariant forall id :: id in distribution ==> fresh(distribution[id]) && distribution[id].Valid()
      invariant forall id, other :: id in distribution && other in distribution && id != other ==> distribution[id] != distribution[other]
      invariant forall id :: id in distribution <==> Used(cells, id, e)
      invariant forall id :: id in distribution ==> distribution[id].Value() == Total(sqrt, cells, id, e)
    {
      var kind := model.elements[e].kind;
      var id := kind.materialId;
      CellKey(model.nodes, kind);
      if id !in distribution {
        UnusedTotal(sqrt, cells, id, e);
        var empty := new GeometricMoments();
        distribution := distribution[id := empty];
      }
      UsedStep(cells, e);
      AddElement(sqrt, model.nodes, kind, distribution[id]);
    }
  }

  lemma CellKey(nodes: seq<Vec3>, kind: ElementKind)
    requires kind.InRange(|nodes|)
    ensures ElementCell(nodes, kind).key == kind.materialId
  {
  }

  lemma NoneUsed<K(!new)>(cells: seq<Slot<K>>)
    ensures forall key :: !Used(cells, key, 0)
  {
  }

  lemma {:induction false} UnusedTotal<K>(sqrt: real -> real, cells: seq<Slot<K>>, key: K, count: nat)
    requires AllCells(cells) && count <= |cells| && !Used(cells, key, count)
    ensures Total(sqrt, cells, key, count) == ZERO_MOMENT
    decreases count
  {
    if count > 0 {
      assert !Used(cells, key, count - 1);
      UnusedTotal(sqrt, cells, key, count - 1);
    }
  }

  lemma UsedStep<K(!new)>(cells: seq<Slot<K>>, count: nat)
    requires count < |cells|
    ensures forall key :: Used(cells, key, count + 1) <==> Used(cells, key, count) || HasKey(cells[count], key)
  {
    forall key
      ensures Used(cells, key, count + 1) <==> Used(cells, key, count) || HasKey(cells[count], key)
    {
      if Used(cells, key, count) {
        var c :| 0 <= c < count && HasKey(cells[c], key);
        assert HasKey(cells[c], key);
      }
    }
  }
}
