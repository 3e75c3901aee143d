/** The comparison of two mesh levels by their materials and loads. */
module Levels {
  import opened RealVectors
  import opened Linalg
  import opened FeaTypes
  import opened Moments
  import opened Refinement
  import Loads

  // ---------------------------------------------------------------- accumulators by key

  ghost predicate AllValid<K>(d: map<K, GeometricMoments>)
    reads d.Values
  {
    forall key :: key in d ==> d[key].Valid()
  }

  /** The moments that the accumulators hold. */
  ghost function Snapshot<K>(d: map<K, GeometricMoments>): (m: map<K, Moment>)
    requires AllValid(d)
    reads d.Values
    ensures m.Keys == d.Keys && forall key :: key in m ==> IsMoment(m[key]) && m[key] == d[key].Value()
  {
    map key | key in d :: d[key].Value()
  }

  ghost predicate Apart<K(!new)>(d: map<K, GeometricMoments>) {
    forall key, other :: key in d && other in d && key != other ==> d[key] != d[other]
  }

  // ---------------------------------------------------------------- loads

  lemma LoadsPrefix(nodes: seq<Vec3>, loads: seq<Load>, k: nat)
    requires k < |loads| && forall i :: 0 <= i < |loads| ==> Loads.LoadFits(loads[i], |nodes|)
    ensures NodalForces(nodes, loads[..k + 1]) == NodalForces(nodes, loads[..k]) + NodalForceOf(nodes, loads[k])
  {
    assert loads[..k + 1][..k] == loads[..k];
  }

  lemma TractionMoment(sqrt: real -> real, nodes: seq<Vec3>, load: Load)
    requires Loads.LoadFits(load, |nodes|) && load.SurfaceTraction?
    ensures var vs := [nodes[load.a], nodes[load.b], nodes[load.c]];
            CellMoment(sqrt, LoadCell(nodes, load).value) == SimplexMoment(Measure(sqrt, vs), vs)
  {
    hide SimplexMoment, Measure;
    var vs := [nodes[load.a], nodes[load.b], nodes[load.c]];
    MomentAt(Weighted(Measure(sqrt, vs), 1.0), Measure(sqrt, vs), vs);
  }

  /** Nodal forces by position, and the moments of the loaded surface under
      every traction, each in its own accumulator. */
  method LoadDefinition(sqrt: real -> real, model: FeaModel)
    returns (nodal: multiset<(Vec3, Vec3)>, surface: map<Vec3, GeometricMoments>)
    requires Loads.LoadsFit(model)
    ensures nodal == NodalForces(model.nodes, model.loads)
    ensures forall t :: t in surface ==> fresh(surface[t])
    ensures AllValid(surface) && Tallies(sqrt, TractionCells(model), |model.loads|, Snapshot(surface))
  {
    hide Plus, CellMoment, Used, NodalForces, LoadCell;
    nodal, surface := multiset{}, map[];
    ghost var cells := TractionCells(model);
    NoneUsed(cells);
    NoForces(model.nodes);
    assert model.loads[..0] == [];
    for k := 0 to |model.loads|
      invariant nodal == NodalForces(model.nodes, model.loads[..k])
      invariant forall t :: t in surface ==> fresh(surface[t]) && surface[t].Valid()
      invariant Apart(surface)
      invariant forall t :: t in surface <==> Used(cells, t, k)
      invariant forall t :: t in surface ==> surface[t].Value() == Total(sqrt, cells, t, k)
    {
      var load := model.loads[k];
      LoadsPrefix(model.nodes, model.loads, k);
      UsedStep(cells, k);
      LoadKey(model.nodes, load);
      match load {
        case NodalForce(node, force) =>
          nodal := nodal + multiset{(model.nodes[node], force)};
        case SurfaceTraction(a, b, c, traction) =>
          if traction !in surface {
            UnusedTotal(sqrt, cells, traction, k);
            var empty := new GeometricMoments();
            surface := surface[traction := empty];
          }
          TractionMoment(sqrt, model.nodes, load);
          surface[traction].AddTriangle(sqrt, model.nodes[a], model.nodes[b], model.nodes[c]);
      }
    }
    assert model.loads[..|model.loads|] == model.loads;
  }

  lemma NoForces(nodes: seq<Vec3>)
    ensures NodalForces(nodes, []) == multiset{}
  {
  }

  lemma LoadKey(nodes: seq<Vec3>, load: Load)
    requires Loads.LoadFits(load, |nodes|)
    ensures load.NodalForce? ==> LoadCell(nodes, load).None? && NodalForceOf(nodes, load) == multiset{(nodes[load.node], load.force)}
    ensures load.SurfaceTraction? ==>
              LoadCell(nodes, load).Some? && LoadCell(nodes, load).value.key == load.traction && NodalForceOf(nodes, load) == multiset{}
  {
  }

  // ---------------------------------------------------------------- comparison

  method SameGeometricMoments(left: GeometricMoments, right: GeometricMoments) returns (same: bool)
    requires left.Valid() && right.Valid()
    ensures same <==> SameMoments(left.Value(), right.Value())
  {
    if !NearRelative(left.measure, right.measure) {
      return false;
    }
    for i := 0 to 3
      invariant forall k :: 0 <= k < i ==> NearRelative(left.first[k], right.first[k])
    {
      if !NearRelative(left.first[i], right.first[i]) {
        return false;
      }
    }
    for i := 0 to 9
      invariant forall k :: 0 <= k < i ==> NearRelative(left.second[k], right.second[k])
    {
      if !NearRelative(left.second[i], right.second[i]) {
        return false;
      }
    }
    return true;
  }

  /** As many keys, and every one of them with the moments of the other side. */
  method SameByKey<K(==, !new)>(candidate: map<K, GeometricMoments>, reference: map<K, GeometricMoments>) returns (same: bool)
    requires AllValid(candidate) && AllValid(reference)
    ensures same <==> SameDistribution(Snapshot(candidate), Snapshot(reference))
  {
    hide SameMoments;
    SnapshotSize(candidate);
    SnapshotSize(reference);
    if |candidate| != |reference| {
      return false;
    }
    var rest := candidate.Keys;
    while rest != {}
      invariant rest <= candidate.Keys
      invariant forall key :: key in candidate && key !in rest ==>
                                key in reference && SameMoments(candidate[key].Value(), reference[key].Value())
      decreases rest
    {
      var key :| key in rest;
      if key !in reference {
        return false;
      }
      var near := SameGeometricMoments(candidate[key], reference[key]);
      if !near {
        return false;
      }
      rest := rest - {key};
    }
    return true;
  }

  lemma SnapshotSize<K>(d: map<K, GeometricMoments>)
    requires AllValid(d)
    ensures |Snapshot(d)| == |d|
  {
    assert |Snapshot(d)| == |Snapshot(d).Keys| && |d| == |d.Keys|;
  }

  // ---------------------------------------------------------------- what the comparison tells apart

  /** Farther apart than a billionth of either magnitude and of one. */
  predicate FarApart(x: real, y: real) {
    var gap := Abs(x - y);
    gap > 0.000000001 && gap > 0.000000001 * Abs(x) && gap > 0.000000001 * Abs(y)
  }

  /** One level uses the key and the other does not, or the totals under it
      differ in the measure, in a first moment or in a second moment. */
  ghost predicate ToldApart<K(!new)>(sqrt: real -> real, fine: seq<Slot<K>>, coarse: seq<Slot<K>>, key: K)
    requires AllCells(fine) && AllCells(coarse)
  {
    var (a, b) := (Total(sqrt, fine, key, |fine|), Total(sqrt, coarse, key, |coarse|));
    || Used(fine, key, |fine|) != Used(coarse, key, |coarse|)
    || (Used(fine, key, |fine|)
        && (|| FarApart(a.measure, b.measure)
            || (exists i :: 0 <= i < 3 && FarApart(a.first[i], b.first[i]))
            || (exists k :: 0 <= k < 9 && FarApart(a.second[k], b.second[k]))))
  }

  /** Both levels use the same keys, each with the same moments up to rounding. */
  ghost predicate CellsAgree<K(!new)>(sqrt: real -> real, fine: seq<Slot<K>>, coarse: seq<Slot<K>>)
    requires AllCells(fine) && AllCells(coarse)
  {
    forall key :: !ToldApart(sqrt, fine, coarse, key)
  }

  /** A truss counts with its length times its area. */
  lemma TrussMoment(sqrt: real -> real, nodes: seq<Vec3>, a: nat, b: nat, id: nat, area: real)
    requires a < |nodes| && b < |nodes|
    ensures var moment := CellMoment(sqrt, ElementCell(nodes, LinearTruss2(a, b, id, area)));
            moment == SimplexMoment(Extent(sqrt, nodes[a], nodes[b]) * area, [nodes[a], nodes[b]])
  {
    hide SimplexMoment, Measure, Extent;
    MeasureIs(sqrt, [nodes[a], nodes[b]]);
    MomentAt(Weighted(Measure(sqrt, [nodes[a], nodes[b]]), area), Extent(sqrt, nodes[a], nodes[b]) * area, [nodes[a], nodes[b]]);
  }

  /** A tetrahedron counts with its volume. */
  lemma TetrahedronMoment(sqrt: real -> real, nodes: seq<Vec3>, a: nat, b: nat, c: nat, d: nat, id: nat)
    requires a < |nodes| && b < |nodes| && c < |nodes| && d < |nodes|
    ensures var moment := CellMoment(sqrt, ElementCell(nodes, LinearTetrahedron4(a, b, c, d, id)));
            moment == SimplexMoment(Volume(nodes[a], nodes[b], nodes[c], nodes[d]), [nodes[a], nodes[b], nodes[c], nodes[d]])
  {
    hide SimplexMoment, Measure, Volume;
    var vs := [nodes[a], nodes[b], nodes[c], nodes[d]];
    MeasureIs(sqrt, vs);
    MomentAt(Weighted(Measure(sqrt, vs), 1.0), Volume(nodes[a], nodes[b], nodes[c], nodes[d]), vs);
  }

  lemma NearMeans(x: real, y: real)
    ensures NearRelative(x, y) <==> !FarApart(x, y)
  {
    var (a, b) := (Abs(x), Abs(y));
    MaxScaled(a, b);
    MaxScaled(Max(a, b), 1.0);
  }

  lemma MaxScaled(a: real, b: real)
    ensures ROUNDING * Max(a, b) == Max(ROUNDING * a, ROUNDING * b)
  {
  }

  lemma SameMeans(a: Moment, b: Moment)
    requires IsMoment(a) && IsMoment(b)
    ensures SameMoments(a, b) <==> && !FarApart(a.measure, b.measure)
                                   && (forall i :: 0 <= i < 3 ==> !FarApart(a.first[i], b.first[i]))
                                   && (forall k :: 0 <= k < 9 ==> !FarApart(a.second[k], b.second[k]))
  {
    hide NearRelative, FarApart;
    NearMeans(a.measure, b.measure);
    forall i | 0 <= i < 3
      ensures NearRelative(a.first[i], b.first[i]) <==> !FarApart(a.first[i], b.first[i])
    {
      NearMeans(a.first[i], b.first[i]);
    }
    forall k | 0 <= k < 9
      ensures NearRelative(a.second[k], b.second[k]) <==> !FarApart(a.second[k], b.second[k])
    {
      NearMeans(a.second[k], b.second[k]);
    }
  }

  lemma TalliesAreMoments<K(!new)>(sqrt: real -> real, cells: seq<Slot<K>>, m: map<K, Moment>)
    requires AllCells(cells) && Tallies(sqrt, cells, |cells|, m)
    ensures forall key :: key in m ==> IsMoment(m[key])
  {
    hide Used, Total;
  }

  /** Tallied levels are told apart at a key exactly when their tallies are. */
  lemma ToldByTallies<K(!new)>(sqrt: real -> real, fine: seq<Slot<K>>, coarse: seq<Slot<K>>, candidate: map<K, Moment>, reference: map<K, Moment>, key: K)
    requires AllCells(fine) && AllCells(coarse)
    requires Tallies(sqrt, fine, |fine|, candidate) && Tallies(sqrt, coarse, |coarse|, reference)
    ensures (key in candidate ==> IsMoment(candidate[key])) && (key in reference ==> IsMoment(reference[key]))
    ensures !ToldApart(sqrt, fine, coarse, key) <==>
            (key in candidate <==> key in reference) && (key in candidate && key in reference ==> SameMoments(candidate[key], reference[key]))
  {
    hide Used, Total, FarApart, SameMoments;
    SameMeans(Total(sqrt, fine, key, |fine|), Total(sqrt, coarse, key, |coarse|));
  }

  lemma {:induction false} SameSize<K>(a: set<K>, b: set<K>)
    requires a <= b && |a| == |b|
    ensures a == b
  {
    assert |b - a| == |b| - |a|;
  }

  lemma AgreeExactly<K(!new)>(sqrt: real -> real, fine: seq<Slot<K>>, coarse: seq<Slot<K>>, candidate: map<K, Moment>, reference: map<K, Moment>)
    requires AllCells(fine) && AllCells(coarse)
    requires Tallies(sqrt, fine, |fine|, candidate) && Tallies(sqrt, coarse, |coarse|, reference)
    ensures (forall key :: key in candidate ==> IsMoment(candidate[key])) && (forall key :: key in reference ==> IsMoment(reference[key]))
    ensures CellsAgree(sqrt, fine, coarse) <==> SameDistribution(candidate, reference)
  {
    hide Tallies, SameMoments, ToldApart;
    TalliesAreMoments(sqrt, fine, candidate);
    TalliesAreMoments(sqrt, coarse, reference);
    forall key
      ensures !ToldApart(sqrt, fine, coarse, key) <==>
              (key in candidate <==> key in reference) && (key in candidate && key in reference ==> SameMoments(candidate[key], reference[key]))
    {
      ToldByTallies(sqrt, fine, coarse, candidate, reference, key);
    }
    if SameDistribution(candidate, reference) {
      SameKeys(candidate, reference);
    }
    if CellsAgree(sqrt, fine, coarse) {
      assert candidate.Keys == reference.Keys;
      assert |candidate| == |candidate.Keys| && |reference| == |reference.Keys|;
    }
  }

  lemma SameKeys<K>(a: map<K, Moment>, b: map<K, Moment>)
    requires |a| == |b| && forall key :: key in a ==> key in b
    ensures a.Keys == b.Keys
  {
    assert |a| == |a.Keys| && |b| == |b.Keys|;
    SameSize(a.Keys, b.Keys);
  }

  /** The second model is reached from the first by cuts at points of edges. */
  ghost predicate RefinesTo(coarse: FeaModel, fine: FeaModel) {
    exists levels, steps :: RefinementChain(levels, steps) && levels[0] == coarse && levels[|steps|] == fine
  }

  lemma RefinedMaterials(sqrt: real -> real, coarse: FeaModel, fine: FeaModel, reference: map<nat, Moment>, candidate: map<nat, Moment>)
    requires IsSqrt(sqrt) && RefinesTo(coarse, fine) && InRange(coarse) && InRange(fine)
    requires Tallies(sqrt, ElementCells(coarse), |coarse.elements|, reference)
    requires Tallies(sqrt, ElementCells(fine), |fine.elements|, candidate)
    ensures forall key :: key in candidate ==> IsMoment(candidate[key])
    ensures forall key :: key in reference ==> IsMoment(reference[key])
    ensures SameDistribution(candidate, reference)
  {
    var levels, steps :| RefinementChain(levels, steps) && levels[0] == coarse && levels[|steps|] == fine;
    RefinedLevelAccepted(sqrt, levels, steps, reference, candidate);
  }

  lemma RefinedTractions(sqrt: real -> real, coarse: FeaModel, fine: FeaModel, reference: map<Vec3, Moment>, candidate: map<Vec3, Moment>)
    requires IsSqrt(sqrt) && RefinesTo(coarse, fine) && Loads.LoadsFit(coarse) && Loads.LoadsFit(fine)
    requires Tallies(sqrt, TractionCells(coarse), |coarse.loads|, reference)
    requires Tallies(sqrt, TractionCells(fine), |fine.loads|, candidate)
    ensures forall key :: key in candidate ==> IsMoment(candidate[key])
    ensures forall key :: key in reference ==> IsMoment(reference[key])
    ensures SameDistribution(candidate, reference) && NodalForces(fine.nodes, fine.loads) == NodalForces(coarse.nodes, coarse.loads)
  {
    var levels, steps :| RefinementChain(levels, steps) && levels[0] == coarse && levels[|steps|] == fine;
    RefinedLoadsAccepted(sqrt, levels, steps, reference, candidate);
  }

  /** The material comparison of two levels: exact up to the rounding it allows,
      and it never refuses a refinement. */
  method SameMaterials(sqrt: real -> real, coarse: FeaModel, fine: FeaModel) returns (same: bool)
    requires InRange(coarse) && InRange(fine)
    ensures same <==> CellsAgree(sqrt, ElementCells(fine), ElementCells(coarse))
    ensures IsSqrt(sqrt) && RefinesTo(coarse, fine) ==> same
  {
    hide RefinesTo, SameDistribution, Tallies, IsSqrt, CellsAgree, ElementCells, InRange;
    var reference := MaterialDistribution(sqrt, coarse);
    var candidate := MaterialDistribution(sqrt, fine);
    Tallied(sqrt, ElementCells(coarse), |coarse.elements|, reference);
    Tallied(sqrt, ElementCells(fine), |fine.elements|, candidate);
    same := SameByKey(candidate, reference);
    AgreeExactly(sqrt, ElementCells(fine), ElementCells(coarse), Snapshot(candidate), Snapshot(reference));
    if IsSqrt(sqrt) && RefinesTo(coarse, fine) {
      RefinedMaterials(sqrt, coarse, fine, Snapshot(reference), Snapshot(candidate));
    }
  }

  lemma Tallied<K(!new)>(sqrt: real -> real, cells: seq<Slot<K>>, count: nat, d: map<K, GeometricMoments>)
    requires AllCells(cells) && count <= |cells| && AllValid(d)
    requires forall key :: key in d <==> Used(cells, key, count)
    requires forall key :: key in d ==> d[key].Value() == Total(sqrt, cells, key, count)
    ensures Tallies(sqrt, cells, count, Snapshot(d))
  {
    hide Used, Total;
  }

  /** Nor does the load comparison: the same nodal forces, and under every
      traction the same surface moments. */
  method SameLoads(sqrt: real -> real, coarse: FeaModel, fine: FeaModel) returns (same: bool)
    requires Loads.LoadsFit(coarse) && Loads.LoadsFit(fine)
    ensures same <==> && NodalForces(fine.nodes, fine.loads) == NodalForces(coarse.nodes, coarse.loads)
                      && CellsAgree(sqrt, TractionCells(fine), TractionCells(coarse))
    ensures IsSqrt(sqrt) && RefinesTo(coarse, fine) ==> same
  {
    hide RefinesTo, SameDistribution, Tallies, IsSqrt, NodalForces, Loads.LoadsFit, CellsAgree, TractionCells;
    var nodal, reference := LoadDefinition(sqrt, coarse);
    var nodal', candidate := LoadDefinition(sqrt, fine);
    var surfaces := SameByKey(candidate, reference);
    same := nodal' == nodal && surfaces;
    AgreeExactly(sqrt, TractionCells(fine), TractionCells(coarse), Snapshot(candidate), Snapshot(reference));
    if IsSqrt(sqrt) && RefinesTo(coarse, fine) {
      RefinedTractions(sqrt, coarse, fine, Snapshot(reference), Snapshot(candidate));
    }
  }
}
