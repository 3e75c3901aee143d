/** Prescribed displacements: collecting them from the model and eliminating
    them from the stiffness matrix in place. */
module Constraints {
  import opened Results
  import opened RealVectors
  import opened FeaTypes
  import opened Elimination
  import opened DenseSolver

  // ---------------------------------------------------------------- collecting

  /** Constraint `c` prescribes `value` for degree of freedom `dof`. */
  ghost predicate Prescribes(c: Constraint, dof: nat, value: real) {
    dof / 3 == c.node && c.Axis(dof % 3) == Some(value)
  }

  /** No two constraints prescribe different values for one degree of freedom. */
  ghost predicate Consistent(constraints: seq<Constraint>) {
    forall i, j, dof, v, w ::
      (&& 0 <= i < |constraints| && 0 <= j < |constraints|
       && Prescribes(constraints[i], dof, v) && Prescribes(constraints[j], dof, w)) ==> v == w
  }

  /** `prescribed` holds the values of the constraints and nothing else. */
  ghost predicate Collects(constraints: seq<Constraint>, prescribed: map<nat, real>) {
    && (forall dof :: dof in prescribed ==>
                        exists i :: 0 <= i < |constraints| && Prescribes(constraints[i], dof, prescribed[dof]))
    && (forall i, dof, v :: 0 <= i < |constraints| && Prescribes(constraints[i], dof, v) ==> dof in prescribed)
  }

  /** What consistency adds: every prescribed value is the one recorded. */
  lemma CollectedValues(constraints: seq<Constraint>, prescribed: map<nat, real>, i: nat, dof: nat, value: real)
    requires Collects(constraints, prescribed) && Consistent(constraints)
    requires i < |constraints| && Prescribes(constraints[i], dof, value)
    ensures dof in prescribed && prescribed[dof] == value
  {
    var j :| 0 <= j < |constraints| && Prescribes(constraints[j], dof, prescribed[dof]);
  }

  /** The first `axes` axes of a constraint inserted into the map. */
  function AxesTo(before: map<nat, real>, c: Constraint, axes: nat): map<nat, real>
    requires axes <= 3
    decreases axes
  {
    if axes == 0 then before
    else
      var m := AxesTo(before, c, axes - 1);
      if c.Axis(axes - 1).Some? then m[c.node * 3 + axes - 1 := c.Axis(axes - 1).value] else m
  }

  /** All constraints inserted in order, so that a later one replaces an earlier. */
  function Collected(constraints: seq<Constraint>): map<nat, real> {
    if constraints == [] then map[]
    else AxesTo(Collected(constraints[..|constraints| - 1]), constraints[|constraints| - 1], 3)
  }

  lemma {:induction false} AxesInserted(before: map<nat, real>, c: Constraint, axes: nat, dof: nat)
    requires axes <= 3
    ensures dof in AxesTo(before, c, axes) <==> dof in before || (dof / 3 == c.node && dof % 3 < axes && c.Axis(dof % 3).Some?)
    ensures dof in AxesTo(before, c, axes) ==>
              AxesTo(before, c, axes)[dof]
              == if dof / 3 == c.node && dof % 3 < axes && c.Axis(dof % 3).Some? then c.Axis(dof % 3).value else before[dof]
    decreases axes
  {
    if axes > 0 {
      AxesInserted(before, c, axes - 1, dof);
    }
  }

  /** The map holds the constraints' values and nothing else. */
  lemma {:induction false} CollectedHolds(constraints: seq<Constraint>)
    ensures Collects(constraints, Collected(constraints))
    decreases |constraints|
  {
    if constraints != [] {
      var n := |constraints| - 1;
      var (before, after, c) := (Collected(constraints[..n]), Collected(constraints), constraints[n]);
      CollectedHolds(constraints[..n]);
      forall dof: nat
        ensures dof in after <==> dof in before || (dof / 3 == c.node && c.Axis(dof % 3).Some?)
        ensures dof in after ==> after[dof] == if dof / 3 == c.node && c.Axis(dof % 3).Some? then c.Axis(dof % 3).value else before[dof]
      {
        AxesInserted(before, c, 3, dof);
      }
      hide AxesTo, Collected;
      CollectsExtend(constraints, n, before, after);
      assert constraints[..n + 1] == constraints;
    }
  }

  /** The last constraint on a degree of freedom decides its value. */
  lemma {:induction false} LastConstraintWins(constraints: seq<Constraint>, i: nat, dof: nat, value: real)
    requires i < |constraints| && Prescribes(constraints[i], dof, value)
    requires forall j, w :: i < j < |constraints| ==> !Prescribes(constraints[j], dof, w)
    ensures dof in Collected(constraints) && Collected(constraints)[dof] == value
    decreases |constraints|
  {
    var n := |constraints| - 1;
    AxesInserted(Collected(constraints[..n]), constraints[n], 3, dof);
    if i < n {
      var c := constraints[n];
      assert dof / 3 == c.node && c.Axis(dof % 3).Some? ==> Prescribes(c, dof, c.Axis(dof % 3).value);
      LastConstraintWins(constraints[..n], i, dof, value);
    }
  }

  method CollectPrescribed(constraints: seq<Constraint>) returns (prescribed: map<nat, real>)
    ensures prescribed == Collected(constraints) && Collects(constraints, prescribed)
  {
    prescribed := map[];
    for i := 0 to |constraints|
      invariant prescribed == Collected(constraints[..i])
    {
      var c := constraints[i];
      ghost var before := prescribed;
      for axis := 0 to 3
        invariant prescribed == AxesTo(before, c, axis)
      {
        if c.Axis(axis).Some? {
          prescribed := prescribed[c.node * 3 + axis := c.Axis(axis).value];
        }
      }
      assert constraints[..i + 1][..i] == constraints[..i];
    }
    assert constraints[..|constraints|] == constraints;
    CollectedHolds(constraints);
  }

  lemma CollectsExtend(constraints: seq<Constraint>, i: nat, before: map<nat, real>, after: map<nat, real>)
    requires i < |constraints| && Collects(constraints[..i], before)
    requires forall dof :: dof in before ==> dof in after
    requires forall dof :: dof in after ==>
                             (dof in before && after[dof] == before[dof]) || Prescribes(constraints[i], dof, after[dof])
    requires forall dof, v :: Prescribes(constraints[i], dof, v) ==> dof in after
    ensures Collects(constraints[..i + 1], after)
  {
    var all := constraints[..i + 1];
    forall dof | dof in after
      ensures exists k :: 0 <= k < |all| && Prescribes(all[k], dof, after[dof])
    {
      if Prescribes(constraints[i], dof, after[dof]) {
        assert Prescribes(all[i], dof, after[dof]);
      } else {
        var k :| 0 <= k < i && Prescribes(constraints[..i][k], dof, before[dof]);
        assert Prescribes(all[k], dof, after[dof]);
      }
    }
    forall k, dof, v | 0 <= k < |all| && Prescribes(all[k], dof, v)
      ensures dof in after
    {
      if k < i {
        assert Prescribes(constraints[..i][k], dof, v);
      }
    }
  }

  // ---------------------------------------------------------------- elimination

  /** The constrained problem itself: prescribed degrees of freedom have their
      values, and every other equation of the original system holds. */
  ghost predicate SolvesConstrained(k: Matrix, f: Vector, prescribed: map<nat, real>, u: Vector)
    requires IsMatrix(k, |f|, |f|)
  {
    && |u| == |f|
    && (forall d :: 0 <= d < |f| && d in prescribed ==> u[d] == prescribed[d])
    && (forall i :: 0 <= i < |f| && i !in prescribed ==> Dot(k[i], u) == f[i])
  }

  ghost predicate ScaledUnitRow(row: Vector, at: nat, scale: real) {
    && at < |row|
    && row[at] == scale
    && forall j :: 0 <= j < |row| && j != at ==> row[j] == 0.0
  }

  lemma ScaledUnitDot(row: Vector, at: nat, scale: real, u: Vector)
    requires ScaledUnitRow(row, at, scale) && |u| == |row|
    ensures Dot(row, u) == scale * u[at]
  {
    DotRangeSplit(row, u, 0, at, |row|);
    DotRangeSplit(row, u, at, at + 1, |row|);
    DotRangeZero(row, u, 0, at);
    DotRangeZero(row, u, at + 1, |row|);
  }

  /** (k', f') is (k, f) with `dof` eliminated. */
  ghost predicate DofEliminated(k: Matrix, f: Vector, k': Matrix, f': Vector, dof: nat, value: real, scale: real) {
    && dof < |f| == |f'|
    && IsMatrix(k, |f|, |f|)
    && IsMatrix(k', |f|, |f|)
    && ScaledUnitRow(k'[dof], dof, scale)
    && f'[dof] == scale * value
    && forall i :: 0 <= i < |f| && i != dof ==> k'[i] == k[i][dof := 0.0] && f'[i] == f[i] - k[i][dof] * value
  }

  /** Eliminates one degree of freedom: its column moves to the right-hand
      side and its own equation becomes scale * u[dof] == scale * value. */
  method EliminateDof(stiffness: array<Vector>, forces: array<real>, dof: nat, value: real, scale: real)
    requires forces.Length == stiffness.Length && dof < stiffness.Length
    requires IsMatrix(stiffness[..], forces.Length, forces.Length)
    modifies stiffness, forces
    ensures DofEliminated(old(stiffness[..]), old(forces[..]), stiffness[..], forces[..], dof, value, scale)
  {
    var n := stiffness.Length;
    for row := 0 to n
      invariant IsMatrix(stiffness[..], n, n)
      invariant |stiffness[dof]| == n
      invariant forall j :: 0 <= j < row && j != dof ==> stiffness[dof][j] == 0.0
      invariant forall i :: 0 <= i < row && i != dof ==>
                              && stiffness[i] == old(stiffness[i])[dof := 0.0]
                              && forces[i] == old(forces[i]) - old(stiffness[i])[dof] * value
      invariant forall i :: row <= i < n && i != dof ==>
                              stiffness[i] == old(stiffness[i]) && forces[i] == old(forces[i])
    {
      if row != dof {
        assert |stiffness[..][row]| == n;
        forces[row] := forces[row] - stiffness[row][dof] * value;
        stiffness[row] := stiffness[row][dof := 0.0];
        stiffness[dof] := stiffness[dof][row := 0.0];
      }
    }
    stiffness[dof] := stiffness[dof][dof := scale];
    forces[dof] := scale * value;
  }

  /** What holds once the prescribed degrees of freedom below `done` are
      eliminated from (k0, f0), leaving (k, f). */
  ghost predicate EliminatedTo(k0: Matrix, f0: Vector, k: Matrix, f: Vector, prescribed: map<nat, real>, scale: real, done: nat) {
    && |f| == |f0|
    && IsMatrix(k0, |f|, |f|)
    && IsMatrix(k, |f|, |f|)
    && (forall p :: 0 <= p < |f| && p < done && p in prescribed ==>
                      ScaledUnitRow(k[p], p, scale) && f[p] == scale * prescribed[p])
    && (forall i, u :: 0 <= i < |f| && !(i < done && i in prescribed) && Honours(u, |f|, prescribed, done) ==>
                         Dot(k[i], u) - f[i] == Dot(k0[i], u) - f0[i])
  }

  ghost predicate Honours(u: Vector, n: nat, prescribed: map<nat, real>, done: nat) {
    |u| == n && forall p :: 0 <= p < n && p < done && p in prescribed ==> u[p] == prescribed[p]
  }

  /** Rows of eliminated degrees of freedom stay scaled unit rows. */
  lemma PrescribedKept(k: Matrix, f: Vector, k': Matrix, f': Vector, prescribed: map<nat, real>, scale: real, dof: nat, p: nat)
    requires dof in prescribed && p < |f| && DofEliminated(k, f, k', f', dof, prescribed[dof], scale)
    requires p != dof ==> p in prescribed && ScaledUnitRow(k[p], p, scale) && f[p] == scale * prescribed[p]
    ensures p in prescribed && ScaledUnitRow(k'[p], p, scale) && f'[p] == scale * prescribed[p]
  {
  }

  lemma MovedShare(k: real, u: real, value: real)
    requires u == value
    ensures (0.0 - k) * u == -(k * value)
  {
  }

  /** Moving a column to the right keeps every other residual. */
  lemma ResidualKept(k: Matrix, f: Vector, k': Matrix, f': Vector, dof: nat, value: real, scale: real, i: nat, u: Vector)
    requires DofEliminated(k, f, k', f', dof, value, scale) && i < |f| == |u| && i != dof && u[dof] == value
    ensures Dot(k'[i], u) - f'[i] == Dot(k[i], u) - f[i]
  {
    assert k'[i] == k[i][dof := 0.0] && f'[i] == f[i] - k[i][dof] * value;
    DotRangeUpdate(k[i], u, dof, 0.0, 0, |f|);
    MovedShare(k[i][dof], u[dof], value);
    hide DofEliminated, DotRange;
  }

  lemma EliminateStep(k0: Matrix, f0: Vector, k: Matrix, f: Vector, k': Matrix, f': Vector,
                      prescribed: map<nat, real>, scale: real, dof: nat)
    requires EliminatedTo(k0, f0, k, f, prescribed, scale, dof)
    requires dof < |f| && dof in prescribed
    requires DofEliminated(k, f, k', f', dof, prescribed[dof], scale)
    ensures EliminatedTo(k0, f0, k', f', prescribed, scale, dof + 1)
  {
    EliminatedSizes(k, f, k', f', dof, prescribed[dof], scale);
    hide Dot, ScaledUnitRow, DofEliminated;
    forall p | 0 <= p < |f| && p < dof + 1 && p in prescribed
      ensures ScaledUnitRow(k'[p], p, scale) && f'[p] == scale * prescribed[p]
    {
      PrescribedKept(k, f, k', f', prescribed, scale, dof, p);
    }
    forall i, u | 0 <= i < |f| && !(i < dof + 1 && i in prescribed) && Honours(u, |f|, prescribed, dof + 1)
      ensures Dot(k'[i], u) - f'[i] == Dot(k0[i], u) - f0[i]
    {
      assert Honours(u, |f|, prescribed, dof);
      ResidualKept(k, f, k', f', dof, prescribed[dof], scale, i, u);
    }
  }

  lemma EliminatedSizes(k: Matrix, f: Vector, k': Matrix, f': Vector, dof: nat, value: real, scale: real)
    requires DofEliminated(k, f, k', f', dof, value, scale)
    ensures |f'| == |f| && IsMatrix(k', |f|, |f|)
  {
  }

  lemma SkipStep(k0: Matrix, f0: Vector, k: Matrix, f: Vector, prescribed: map<nat, real>, scale: real, dof: nat)
    requires EliminatedTo(k0, f0, k, f, prescribed, scale, dof)
    requires dof !in prescribed
    ensures EliminatedTo(k0, f0, k, f, prescribed, scale, dof + 1)
  {
    forall i, u | 0 <= i < |f| && !(i < dof + 1 && i in prescribed) && Honours(u, |f|, prescribed, dof + 1)
      ensures Dot(k[i], u) - f[i] == Dot(k0[i], u) - f0[i]
    {
      assert Honours(u, |f|, prescribed, dof);
    }
  }

  /** A scaled unit row holds exactly when the entry has its value. */
  lemma PrescribedMet(row: Vector, p: nat, scale: real, u: Vector, value: real)
    requires ScaledUnitRow(row, p, scale) && |u| == |row| && scale != 0.0
    ensures Dot(row, u) == scale * value <==> u[p] == value
  {
    hide Dot;
    ScaledUnitDot(row, p, scale, u);
    hide ScaledUnitRow;
    if scale * u[p] == scale * value {
      CancelFactor(scale, u[p], value);
    }
  }

  /** Once every prescribed degree of freedom is eliminated, the square system
      and the constrained problem have the same solutions. */
  lemma EliminationSound(k0: Matrix, f0: Vector, k: Matrix, f: Vector, prescribed: map<nat, real>, scale: real, u: Vector)
    requires EliminatedTo(k0, f0, k, f, prescribed, scale, |f|)
    requires scale != 0.0
    ensures Solves(k, f, u) <==> SolvesConstrained(k0, f0, prescribed, u)
  {
    hide Dot, ScaledUnitRow;
    var n := |f|;
    if Solves(k, f, u) {
      forall p | 0 <= p < n && p in prescribed
        ensures u[p] == prescribed[p]
      {
        assert Dot(k[p], u) == f[p];
        PrescribedMet(k[p], p, scale, u, prescribed[p]);
      }
      assert Honours(u, n, prescribed, n);
      assert SolvesConstrained(k0, f0, prescribed, u);
    }
    if SolvesConstrained(k0, f0, prescribed, u) {
      assert Honours(u, n, prescribed, n);
      forall i | 0 <= i < n
        ensures Dot(k[i], u) == f[i]
      {
        if i in prescribed {
          PrescribedMet(k[i], i, scale, u, prescribed[i]);
        } else {
          assert Dot(k[i], u) - f[i] == Dot(k0[i], u) - f0[i];
        }
      }
    }
  }

  // ---------------------------------------------------------------- the system that is left

  /** The prescribed values below `done`, zero elsewhere. */
  function Extension(prescribed: map<nat, real>, n: nat, done: nat): (g: Vector)
    ensures |g| == n
  {
    seq(n, j requires 0 <= j < n => if j < done && j in prescribed then prescribed[j] else 0.0)
  }

  predicate Gone(prescribed: map<nat, real>, done: nat, d: nat) {
    d < done && d in prescribed
  }

  function ConstrainedRow(k: Matrix, n: nat, prescribed: map<nat, real>, scale: real, done: nat, i: nat): (row: Vector)
    requires IsMatrix(k, n, n) && i < n
    ensures |row| == n
  {
    seq(n, j requires 0 <= j < n =>
      if Gone(prescribed, done, i) then (if i == j then scale else 0.0)
      else if Gone(prescribed, done, j) then 0.0 else k[i][j])
  }

  function ConstrainedForce(k: Matrix, f: Vector, prescribed: map<nat, real>, scale: real, done: nat, i: nat): real
    requires IsMatrix(k, |f|, |f|) && i < |f|
  {
    if Gone(prescribed, done, i) then scale * prescribed[i] else f[i] - Dot(k[i], Extension(prescribed, |f|, done))
  }

  /** The system with the prescribed degrees of freedom below `done` taken out:
      unit rows for them, their columns cleared, and their share of every other
      equation moved to the right-hand side. */
  function Constrained(k: Matrix, f: Vector, prescribed: map<nat, real>, scale: real, done: nat): (s: System)
    requires IsMatrix(k, |f|, |f|)
    ensures IsMatrix(s.m, |f|, |f|) && |s.b| == |f|
  {
    var n := |f|;
    System(seq(n, i requires 0 <= i < n => ConstrainedRow(k, n, prescribed, scale, done, i)),
           seq(n, i requires 0 <= i < n => ConstrainedForce(k, f, prescribed, scale, done, i)))
  }

  lemma ConstrainedNone(k: Matrix, f: Vector, prescribed: map<nat, real>, scale: real)
    requires IsMatrix(k, |f|, |f|)
    ensures Constrained(k, f, prescribed, scale, 0) == System(k, f)
  {
    var s := Constrained(k, f, prescribed, scale, 0);
    forall i | 0 <= i < |f|
      ensures s.m[i] == k[i] && s.b[i] == f[i]
    {
      DotRangeCommutes(k[i], Extension(prescribed, |f|, 0), 0, |f|);
      DotRangeZero(Extension(prescribed, |f|, 0), k[i], 0, |f|);
    }
    hide Constrained;
    assert s.m == k && s.b == f;
  }

  lemma ExtensionStep(row: Vector, prescribed: map<nat, real>, dof: nat)
    requires dof < |row| && dof in prescribed
    ensures Dot(row, Extension(prescribed, |row|, dof + 1)) == Dot(row, Extension(prescribed, |row|, dof)) + row[dof] * prescribed[dof]
  {
    var (n, g, h) := (|row|, Extension(prescribed, |row|, dof), Extension(prescribed, |row|, dof + 1));
    assert h == g[dof := prescribed[dof]];
    DotRangeCommutes(row, g, 0, n);
    DotRangeCommutes(row, h, 0, n);
    DotRangeUpdate(g, row, dof, prescribed[dof], 0, n);
  }

  lemma ConstrainedRowStep(k: Matrix, f: Vector, s: System, k': Matrix, f': Vector, prescribed: map<nat, real>, scale: real, dof: nat, i: nat)
    requires IsMatrix(k, |f|, |f|) && dof < |f| && dof in prescribed && i < |f|
    requires s == Constrained(k, f, prescribed, scale, dof) && DofEliminated(s.m, s.b, k', f', dof, prescribed[dof], scale)
    ensures k'[i] == ConstrainedRow(k, |f|, prescribed, scale, dof + 1, i)
    ensures f'[i] == ConstrainedForce(k, f, prescribed, scale, dof + 1, i)
  {
    hide Dot;
    ExtensionStep(k[i], prescribed, dof);
    hide Extension;
    assert s.m[i] == ConstrainedRow(k, |f|, prescribed, scale, dof, i);
    assert s.b[i] == ConstrainedForce(k, f, prescribed, scale, dof, i);
  }

  /** Eliminating the next degree of freedom gives the next closed form. */
  lemma ConstrainedStep(k: Matrix, f: Vector, s: System, k': Matrix, f': Vector, prescribed: map<nat, real>, scale: real, dof: nat)
    requires IsMatrix(k, |f|, |f|) && dof < |f| && dof in prescribed
    requires s == Constrained(k, f, prescribed, scale, dof) && DofEliminated(s.m, s.b, k', f', dof, prescribed[dof], scale)
    ensures System(k', f') == Constrained(k, f, prescribed, scale, dof + 1)
  {
    hide ConstrainedRow, ConstrainedForce;
    var t := Constrained(k, f, prescribed, scale, dof + 1);
    forall i | 0 <= i < |f|
      ensures k'[i] == t.m[i] && f'[i] == t.b[i]
    {
      ConstrainedRowStep(k, f, s, k', f', prescribed, scale, dof, i);
    }
    assert k' == t.m && f' == t.b;
  }

  lemma ConstrainedSkip(k: Matrix, f: Vector, prescribed: map<nat, real>, scale: real, dof: nat)
    requires IsMatrix(k, |f|, |f|) && dof < |f| && dof !in prescribed
    ensures Constrained(k, f, prescribed, scale, dof + 1) == Constrained(k, f, prescribed, scale, dof)
  {
    hide Dot;
    var (s, t) := (Constrained(k, f, prescribed, scale, dof), Constrained(k, f, prescribed, scale, dof + 1));
    assert Extension(prescribed, |f|, dof + 1) == Extension(prescribed, |f|, dof);
    hide Extension;
    forall i | 0 <= i < |f|
      ensures s.m[i] == t.m[i] && s.b[i] == t.b[i]
    {
      assert ConstrainedRow(k, |f|, prescribed, scale, dof + 1, i) == ConstrainedRow(k, |f|, prescribed, scale, dof, i);
    }
    hide Constrained;
    assert s.m == t.m && s.b == t.b;
  }

  /** Eliminates every prescribed degree of freedom, in ascending order as
      the source's ordered map does. */
  method EliminateAll(stiffness: array<Vector>, forces: array<real>, prescribed: map<nat, real>)
    requires forces.Length == stiffness.Length
    requires IsMatrix(stiffness[..], forces.Length, forces.Length)
    modifies stiffness, forces
    ensures IsMatrix(stiffness[..], forces.Length, forces.Length)
    ensures forall u :: Solves(stiffness[..], forces[..], u)
                   <==> SolvesConstrained(old(stiffness[..]), old(forces[..]), prescribed, u)
    ensures forall scale :: IsScale(old(stiffness[..]), scale) ==>
                              System(stiffness[..], forces[..])
                              == Constrained(old(stiffness[..]), old(forces[..]), prescribed, scale, forces.Length)
  {
    hide Constrained, EliminatedTo, DofEliminated, IsScale, Solves, SolvesConstrained;
    var n := stiffness.Length;
    ghost var k0, f0 := stiffness[..], forces[..];
    var scale := MaxAbsEntry(stiffness);
    ConstrainedNone(k0, f0, prescribed, scale);
    EliminatedNone(k0, f0, prescribed, scale);
    for dof := 0 to n
      invariant EliminatedTo(k0, f0, stiffness[..], forces[..], prescribed, scale, dof)
      invariant IsMatrix(stiffness[..], n, n)
      invariant System(stiffness[..], forces[..]) == Constrained(k0, f0, prescribed, scale, dof)
    {
      ghost var k, f := stiffness[..], forces[..];
      if dof in prescribed {
        EliminateDof(stiffness, forces, dof, prescribed[dof], scale);
        EliminateStep(k0, f0, k, f, stiffness[..], forces[..], prescribed, scale, dof);
        ConstrainedStep(k0, f0, System(k, f), stiffness[..], forces[..], prescribed, scale, dof);
      } else {
        SkipStep(k0, f0, k, f, prescribed, scale, dof);
        ConstrainedSkip(k0, f0, prescribed, scale, dof);
      }
    }
    forall u
      ensures Solves(stiffness[..], forces[..], u) <==> SolvesConstrained(k0, f0, prescribed, u)
    {
      ScalePositive(k0, scale);
      EliminationSound(k0, f0, stiffness[..], forces[..], prescribed, scale, u);
    }
    forall t | IsScale(k0, t)
      ensures t == scale
    {
      ScaleUnique(k0, t, scale);
    }
  }

  lemma EliminatedNone(k: Matrix, f: Vector, prescribed: map<nat, real>, scale: real)
    requires IsMatrix(k, |f|, |f|)
    ensures EliminatedTo(k, f, k, f, prescribed, scale, 0)
  {
  }

  lemma ScalePositive(k: Matrix, scale: real)
    requires IsScale(k, scale)
    ensures scale >= 1.0
  {
  }

  /** Rewrites the system in place so that its solutions are exactly those of
      the constrained problem over the original stiffness and forces. */
  method ApplyConstraints(stiffness: array<Vector>, forces: array<real>, constraints: seq<Constraint>)
    returns (r: Result<map<nat, real>, FeaError>)
    requires forces.Length == stiffness.Length
    requires IsMatrix(stiffness[..], forces.Length, forces.Length)
    requires forall i :: 0 <= i < |constraints| ==> constraints[i].node * 3 + 2 < forces.Length
    modifies stiffness, forces
    ensures IsMatrix(stiffness[..], forces.Length, forces.Length)
    ensures r.Err? <==> forall i :: 0 <= i < |constraints| ==> Unconstrained(constraints[i])
    ensures r.Err? ==> r.error == MissingConstraint
    ensures r.Ok? ==> r.value == Collected(constraints) && Collects(constraints, r.value)
    ensures r.Ok? ==> forall scale :: IsScale(old(stiffness[..]), scale) ==>
                                        System(stiffness[..], forces[..])
                                        == Constrained(old(stiffness[..]), old(forces[..]), r.value, scale, forces.Length)
    ensures r.Ok? ==> forall d :: d in r.value ==> d < forces.Length
    ensures r.Ok? ==> forall u :: Solves(stiffness[..], forces[..], u)
                             <==> SolvesConstrained(old(stiffness[..]), old(forces[..]), r.value, u)
  {
    var prescribed := CollectPrescribed(constraints);
    EliminateAll(stiffness, forces, prescribed);
    EmptyExactly(constraints, prescribed);
    if prescribed == map[] {
      return Err(MissingConstraint);
    }
    forall d | d in prescribed
      ensures d < forces.Length
    {
      var i :| 0 <= i < |constraints| && Prescribes(constraints[i], d, prescribed[d]);
    }
    return Ok(prescribed);
  }

  predicate Unconstrained(c: Constraint) {
    c.x.None? && c.y.None? && c.z.None?
  }

  lemma EmptyExactly(constraints: seq<Constraint>, prescribed: map<nat, real>)
    requires Collects(constraints, prescribed)
    ensures prescribed == map[] <==> forall i :: 0 <= i < |constraints| ==> Unconstrained(constraints[i])
  {
    if prescribed == map[] {
      forall i | 0 <= i < |constraints|
        ensures Unconstrained(constraints[i])
      {
        forall axis: nat | axis < 3
          ensures constraints[i].Axis(axis).None?
        {
          if constraints[i].Axis(axis).Some? {
            var dof := constraints[i].node * 3 + axis;
            assert dof / 3 == constraints[i].node && dof % 3 == axis;
            assert Prescribes(constraints[i], dof, constraints[i].Axis(axis).value);
          }
        }
        assert constraints[i].Axis(0) == constraints[i].x;
        assert constraints[i].Axis(1) == constraints[i].y;
        assert constraints[i].Axis(2) == constraints[i].z;
      }
    } else {
      var dof :| dof in prescribed;
      var i :| 0 <= i < |constraints| && Prescribes(constraints[i], dof, prescribed[dof]);
      assert constraints[i].Axis(dof % 3).Some?;
    }
  }
}
