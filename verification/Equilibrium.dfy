/** Residuals, and the displacement as the minimiser of potential energy. */
module Equilibrium {
  import opened RealVectors
  import opened LinearForms
  import opened Constraints

  function Residual(k: Matrix, f: Vector, u: Vector): (r: Vector)
    requires IsMatrix(k, |f|, |f|) && |u| == |f|
    ensures |r| == |f|
  {
    seq(|f|, i requires 0 <= i < |f| => Dot(k[i], u) - f[i])
  }

  /** v . (k u - f) */
  lemma ResidualWork(k: Matrix, f: Vector, u: Vector, v: Vector)
    requires IsMatrix(k, |f|, |f|) && |u| == |v| == |f|
    ensures Dot(v, Residual(k, f, u)) == Form(k, v, u) - Dot(v, f)
  {
    var r, w := Residual(k, f, u), Apply(k, u);
    forall i | 0 <= i < |f|
      ensures r[i] == w[i] + -1.0 * f[i]
    {
      assert w[i] == Dot(k[i], u);
    }
    DotRangeCommutes(v, r, 0, |f|);
    DotRangeCommutes(v, w, 0, |f|);
    DotRangeCommutes(v, f, 0, |f|);
    DotRangeCombine(w, f, -1.0, r, v, 0, |f|);
  }

  lemma FreeResidual(k: Matrix, f: Vector, u: Vector, prescribed: map<nat, real>)
    requires IsMatrix(k, |f|, |f|) && SolvesConstrained(k, f, prescribed, u)
    ensures forall d :: 0 <= d < |f| && d !in prescribed ==> Residual(k, f, u)[d] == 0.0
  {
    hide Dot;
    forall d | 0 <= d < |f| && d !in prescribed
      ensures Residual(k, f, u)[d] == 0.0
    {
      assert Dot(k[d], u) == f[d];
    }
  }

  // ---------------------------------------------------------------- potential energy

  ghost predicate SymmetricForm(k: Matrix, n: nat)
    requires IsMatrix(k, n, n)
  {
    forall v, u :: |v| == n && |u| == n ==> Form(k, v, u) == Form(k, u, v)
  }

  ghost predicate Semidefinite(k: Matrix, n: nat)
    requires IsMatrix(k, n, n)
  {
    forall v :: |v| == n ==> Form(k, v, v) >= 0.0
  }

  /** Strain energy less the work of the loads. */
  function Potential(k: Matrix, f: Vector, v: Vector): real
    requires IsMatrix(k, |f|, |f|) && |v| == |f|
  {
    0.5 * Form(k, v, v) - Dot(v, f)
  }

  /** The displacement has every prescribed value. */
  ghost predicate Admissible(n: nat, prescribed: map<nat, real>, v: Vector) {
    |v| == n && forall d :: 0 <= d < n && d in prescribed ==> v[d] == prescribed[d]
  }

  function Difference(v: Vector, u: Vector): (d: Vector)
    requires |v| == |u|
    ensures |d| == |u| && Combination(v, u, 1.0, d)
  {
    seq(|u|, i requires 0 <= i < |u| => v[i] - u[i])
  }

  lemma FormOfSum(k: Matrix, n: nat, c: Vector, a: Vector, t: real, p: Vector)
    requires IsMatrix(k, n, n) && |c| == n && Combination(c, a, t, p) && SymmetricForm(k, n)
    ensures Form(k, c, c) == Form(k, a, a) + 2.0 * t * Form(k, p, a) + t * t * Form(k, p, p)
  {
    hide Form;
    FormLeftLinear(k, c, a, t, p, c);
    FormRightLinear(k, a, c, a, t, p);
    FormRightLinear(k, p, c, a, t, p);
    assert Form(k, a, p) == Form(k, p, a);
    Collect(Form(k, a, a), Form(k, p, a), Form(k, p, p), t);
  }

  lemma Collect(aa: real, pa: real, pp: real, t: real)
    ensures aa + t * pa + t * (pa + t * pp) == aa + 2.0 * t * pa + t * t * pp
  {
  }

  /** The work of a vector on one that vanishes wherever it does not. */
  lemma {:induction false} DisjointDot(a: Vector, b: Vector, hi: nat)
    requires hi <= |a| && hi <= |b| && forall i :: 0 <= i < hi ==> a[i] == 0.0 || b[i] == 0.0
    ensures DotRange(a, b, 0, hi) == 0.0
    decreases hi
  {
    if hi > 0 {
      DisjointDot(a, b, hi - 1);
    }
  }

  /** The residual does no work on a change that respects the constraints. */
  lemma VirtualWork(k: Matrix, f: Vector, prescribed: map<nat, real>, u: Vector, d: Vector)
    requires IsMatrix(k, |f|, |f|) && SolvesConstrained(k, f, prescribed, u) && |d| == |f|
    requires forall i :: 0 <= i < |f| && i in prescribed ==> d[i] == 0.0
    ensures Form(k, d, u) == Dot(d, f)
  {
    FreeResidual(k, f, u, prescribed);
    ResidualWork(k, f, u, d);
    DisjointDot(d, Residual(k, f, u), |f|);
  }

  lemma FormOfPlus(k: Matrix, n: nat, c: Vector, a: Vector, p: Vector)
    requires IsMatrix(k, n, n) && |c| == n && Combination(c, a, 1.0, p) && SymmetricForm(k, n)
    ensures Form(k, c, c) == Form(k, a, a) + 2.0 * Form(k, p, a) + Form(k, p, p)
  {
    hide Form, SymmetricForm, Combination;
    FormOfSum(k, n, c, a, 1.0, p);
  }

  lemma WorkOfPlus(v: Vector, u: Vector, d: Vector, f: Vector)
    requires |f| == |v| && Combination(v, u, 1.0, d)
    ensures Dot(v, f) == Dot(u, f) + Dot(d, f)
  {
    DotRangeCombine(u, d, 1.0, v, f, 0, |f|);
  }

  /** How much more potential energy another admissible displacement has. */
  lemma PotentialGap(k: Matrix, f: Vector, prescribed: map<nat, real>, u: Vector, v: Vector)
    requires IsMatrix(k, |f|, |f|) && SymmetricForm(k, |f|)
    requires SolvesConstrained(k, f, prescribed, u) && Admissible(|f|, prescribed, v)
    ensures Potential(k, f, v) == Potential(k, f, u) + 0.5 * Form(k, Difference(v, u), Difference(v, u))
  {
    hide Form, Dot, SymmetricForm, Combination;
    var d := Difference(v, u);
    VirtualWork(k, f, prescribed, u, d);
    hide Difference, SolvesConstrained, Admissible;
    WorkOfPlus(v, u, d, f);
    FormOfPlus(k, |f|, v, u, d);
  }

  lemma NullScalars(a: real, b: real, t: real)
    requires b >= 0.0 && t == -a / (b + 1.0) && 0.0 <= 2.0 * t * a + t * t * b
    ensures a == 0.0
  {
    assert a == -t * (b + 1.0);
    assert 2.0 * t * a + t * t * b == -(t * t * (b + 2.0));
    if t != 0.0 {
      assert t * t > 0.0;
      assert t * t * (b + 2.0) > 0.0;
    }
  }

  /** Where a semidefinite form vanishes, so does its matrix. */
  lemma NullForm(k: Matrix, n: nat, d: Vector, w: Vector)
    requires IsMatrix(k, n, n) && SymmetricForm(k, n) && Semidefinite(k, n)
    requires |d| == n && |w| == n && Form(k, d, d) == 0.0
    ensures Form(k, w, d) == 0.0
  {
    hide Form;
    var (a, b) := (Form(k, w, d), Form(k, w, w));
    var t := -a / (b + 1.0);
    var c := seq(n, i requires 0 <= i < n => d[i] + t * w[i]);
    FormOfSum(k, n, c, d, t, w);
    assert Form(k, c, c) >= 0.0;
    NullScalars(a, b, t);
  }

  lemma RowOfForm(k: Matrix, n: nat, i: nat, d: Vector)
    requires IsMatrix(k, n, n) && i < n == |d|
    ensures Form(k, Unit(n, i), d) == Dot(k[i], d)
  {
    UnitDot(n, i, Apply(k, d));
  }

  lemma NullChange(k: Matrix, f: Vector, prescribed: map<nat, real>, u: Vector, v: Vector)
    requires IsMatrix(k, |f|, |f|) && SymmetricForm(k, |f|) && Semidefinite(k, |f|)
    requires SolvesConstrained(k, f, prescribed, u) && Admissible(|f|, prescribed, v)
    requires Form(k, Difference(v, u), Difference(v, u)) == 0.0
    ensures SolvesConstrained(k, f, prescribed, v)
  {
    hide Form, Dot;
    var (n, d) := (|f|, Difference(v, u));
    hide Difference;
    forall i | 0 <= i < n && i !in prescribed
      ensures Dot(k[i], v) == f[i]
    {
      NullForm(k, n, d, Unit(n, i));
      RowOfForm(k, n, i, d);
      SumDot(k[i], v, u, d);
    }
  }

  lemma SumDot(row: Vector, v: Vector, u: Vector, d: Vector)
    requires |row| == |v| && Combination(v, u, 1.0, d)
    ensures Dot(row, v) == Dot(row, u) + Dot(row, d)
  {
    DotRangeCommutes(row, v, 0, |v|);
    DotRangeCommutes(row, u, 0, |v|);
    DotRangeCommutes(row, d, 0, |v|);
    DotRangeCombine(u, d, 1.0, v, row, 0, |v|);
  }

  /** The only solution of the constrained problem is the only admissible
      displacement of least potential energy. */
  lemma LeastPotential(k: Matrix, f: Vector, prescribed: map<nat, real>, u: Vector, v: Vector)
    requires IsMatrix(k, |f|, |f|) && SymmetricForm(k, |f|) && Semidefinite(k, |f|)
    requires SolvesConstrained(k, f, prescribed, u) && forall y :: SolvesConstrained(k, f, prescribed, y) ==> y == u
    requires Admissible(|f|, prescribed, v) && v != u
    ensures Potential(k, f, u) < Potential(k, f, v)
  {
    hide Form, Dot, SolvesConstrained, Potential;
    PotentialGap(k, f, prescribed, u, v);
    var d := Difference(v, u);
    hide Difference;
    assert Form(k, d, d) >= 0.0;
    if Form(k, d, d) == 0.0 {
      NullChange(k, f, prescribed, u, v);
    }
  }
}
