/** What a refused constrained system says about the structure: a motion that
    the constraints allow and that meets almost no resistance. */
module Mechanisms {
  import opened RealVectors
  import opened Elimination
  import opened DenseSolver
  import opened Constraints

  /** A displacement that respects the constraints, moves a free degree of
      freedom by one, and meets at most `threshold` at every free one. */
  ghost predicate Mechanism(k: Matrix, n: nat, prescribed: map<nat, real>, y: Vector, c: nat, threshold: real)
    requires IsMatrix(k, n, n)
  {
    && |y| == n && c < n && c !in prescribed && y[c] == 1.0
    && (forall d :: 0 <= d < n && d in prescribed ==> y[d] == 0.0)
    && (forall i :: 0 <= i < n && i !in prescribed ==> Abs(Dot(k[i], y)) <= threshold)
  }

  ghost predicate HasMechanism(k: Matrix, n: nat, prescribed: map<nat, real>, threshold: real)
    requires IsMatrix(k, n, n)
  {
    exists y, c :: Mechanism(k, n, prescribed, y, c, threshold)
  }

  lemma {:induction false} SameProducts(a: Vector, x: Vector, b: Vector, y: Vector, hi: nat)
    requires hi <= |a| && hi <= |x| && hi <= |b| && hi <= |y|
    requires forall j :: 0 <= j < hi ==> a[j] * x[j] == b[j] * y[j]
    ensures DotRange(a, x, 0, hi) == DotRange(b, y, 0, hi)
    decreases hi
  {
    if hi > 0 {
      SameProducts(a, x, b, y, hi - 1);
    }
  }

  /** The same displacement with the prescribed entries at rest. */
  function AtRest(x: Vector, prescribed: map<nat, real>): (y: Vector)
    ensures |y| == |x|
  {
    seq(|x|, j requires 0 <= j < |x| => if j in prescribed then 0.0 else x[j])
  }

  /** A free row of the constrained matrix sees only the free entries. */
  lemma FreeRow(k: Matrix, n: nat, prescribed: map<nat, real>, scale: real, i: nat, x: Vector)
    requires IsMatrix(k, n, n) && i < n == |x| && i !in prescribed
    ensures Dot(ConstrainedRow(k, n, prescribed, scale, n, i), x) == Dot(k[i], AtRest(x, prescribed))
  {
    SameProducts(ConstrainedRow(k, n, prescribed, scale, n, i), x, k[i], AtRest(x, prescribed), n);
  }

  lemma PrescribedRow(k: Matrix, n: nat, prescribed: map<nat, real>, scale: real, d: nat, x: Vector)
    requires IsMatrix(k, n, n) && d < n == |x| && d in prescribed
    ensures Dot(ConstrainedRow(k, n, prescribed, scale, n, d), x) == scale * x[d]
  {
    ScaledUnitDot(ConstrainedRow(k, n, prescribed, scale, n, d), d, scale, x);
  }

  /** Taking degrees of freedom out keeps the scale. */
  lemma ConstrainedScale(k: Matrix, f: Vector, prescribed: map<nat, real>, scale: real, d: nat)
    requires IsMatrix(k, |f|, |f|) && IsScale(k, scale) && d < |f| && d in prescribed
    ensures IsScale(Constrained(k, f, prescribed, scale, |f|).m, scale)
  {
    var m := Constrained(k, f, prescribed, scale, |f|).m;
    forall i, j | 0 <= i < |m| && 0 <= j < |m[i]|
      ensures Abs(m[i][j]) <= scale
    {
      assert Abs(k[i][j]) <= scale;
    }
    assert Abs(m[d][d]) == scale;
  }

  lemma ThresholdBelow(scale: real, tolerance: real)
    requires scale >= 1.0 && 0.0 <= tolerance < 1.0
    ensures Threshold(scale, tolerance) < scale
  {
    assert scale * (1.0 - tolerance) > 0.0;
  }

  /** A refused constrained system has a motion that respects the constraints,
      moves some free degree of freedom by one and meets at most the threshold. */
  lemma RefusalIsMechanism(k: Matrix, f: Vector, prescribed: map<nat, real>, scale: real, tolerance: real, d: nat)
    requires IsMatrix(k, |f|, |f|) && IsScale(k, scale) && 0.0 <= tolerance < 1.0 && d < |f| && d in prescribed
    requires var s := Constrained(k, f, prescribed, scale, |f|); NoUsablePivot(s.m, s.b, tolerance)
    ensures HasMechanism(k, |f|, prescribed, Threshold(scale, tolerance))
  {
    hide NoUsablePivot, Dot, ConstrainedRow, ConstrainedForce, Threshold;
    var (n, s) := (|f|, Constrained(k, f, prescribed, scale, |f|));
    ConstrainedScale(k, f, prescribed, scale, d);
    RefusalNearlySingular(s.m, s.b, tolerance, scale);
    var x, c: nat :| AlmostKernel(s.m, n, x, c, Threshold(scale, tolerance));
    ThresholdBelow(scale, tolerance);
    assert s.m[c] == ConstrainedRow(k, n, prescribed, scale, n, c);
    if c in prescribed {
      PrescribedRow(k, n, prescribed, scale, c, x);
    }
    var y := AtRest(x, prescribed);
    forall i | 0 <= i < n && i !in prescribed
      ensures Abs(Dot(k[i], y)) <= Threshold(scale, tolerance)
    {
      FreeRow(k, n, prescribed, scale, i, x);
      assert s.m[i] == ConstrainedRow(k, n, prescribed, scale, n, i);
    }
    assert Mechanism(k, n, prescribed, y, c, Threshold(scale, tolerance));
  }

  lemma BlockedMore(s: System, low: real, high: real)
    requires IsSystem(s) && low <= high && Refused(s, low)
    ensures Refused(s, high)
  {
    hide After;
    var column :| 0 <= column < |s.b| && Blocked(After(s, column), column, low);
    assert Blocked(After(s, column), column, high);
  }

  lemma ThresholdSign(scale: real, tolerance: real)
    requires scale >= 1.0 && tolerance >= 0.0
    ensures Threshold(scale, tolerance) >= 0.0
  {
  }

  /** A motion that meets no resistance at all is refused at every tolerance. */
  lemma MechanismIsRefused(k: Matrix, f: Vector, prescribed: map<nat, real>, scale: real, tolerance: real, d: nat)
    requires IsMatrix(k, |f|, |f|) && IsScale(k, scale) && tolerance >= 0.0 && d < |f| && d in prescribed
    requires HasMechanism(k, |f|, prescribed, 0.0)
    ensures var s := Constrained(k, f, prescribed, scale, |f|); NoUsablePivot(s.m, s.b, tolerance)
  {
    hide Refused, Dot, ConstrainedRow, ConstrainedForce, Threshold, NoUsablePivot;
    var (n, s) := (|f|, Constrained(k, f, prescribed, scale, |f|));
    var y, c: nat :| Mechanism(k, n, prescribed, y, c, 0.0);
    assert AtRest(y, prescribed) == y;
    forall i | 0 <= i < n
      ensures Dot(s.m[i], y) == 0.0
    {
      if i in prescribed {
        PrescribedRow(k, n, prescribed, scale, i, y);
      } else {
        FreeRow(k, n, prescribed, scale, i, y);
        assert Abs(Dot(k[i], y)) <= 0.0;
      }
    }
    assert Kernel(s.m, n, y) && y[c] != Zeros(n)[c];
    ZeroThresholdExact(s);
    ConstrainedScale(k, f, prescribed, scale, d);
    ThresholdSign(scale, tolerance);
    BlockedMore(s, 0.0, Threshold(scale, tolerance));
    AtScale(s.m, s.b, tolerance, scale);
  }
}
