/** Gaussian elimination with partial pivoting and back substitution. */
module DenseSolver {
  import opened Results
  import opened RealVectors
  import opened Elimination
  import opened FeaTypes

  ghost predicate Solves(m: Matrix, b: Vector, x: Vector)
    requires IsMatrix(m, |b|, |b|)
  {
    |x| == |b| && forall i :: 0 <= i < |b| ==> Dot(m[i], x) == b[i]
  }

  /** Two systems of the same size with the same solutions. */
  ghost predicate Equivalent(m: Matrix, b: Vector, m': Matrix, b': Vector) {
    && |b| == |b'|
    && IsMatrix(m, |b|, |b|)
    && IsMatrix(m', |b|, |b|)
    && forall x :: Solves(m, b, x) <==> Solves(m', b', x)
  }

  // ---------------------------------------------------------------- scale

  method MaxAbsEntry(matrix: array<Vector>) returns (scale: real)
    ensures IsScale(matrix[..], scale)
  {
    scale := 1.0;
    for i := 0 to matrix.Length
      invariant IsScale(matrix[..i], scale)
    {
      ghost var before := scale;
      for j := 0 to |matrix[i]|
        invariant scale >= before >= 1.0
        invariant forall k :: 0 <= k < j ==> Abs(matrix[i][k]) <= scale
        invariant scale == before || exists k :: 0 <= k < j && Abs(matrix[i][k]) == scale
      {
        if Abs(matrix[i][j]) > scale {
          scale := Abs(matrix[i][j]);
        }
      }
      assert matrix[..i + 1] == matrix[..i] + [matrix[i]];
      if scale != before {
        var k :| 0 <= k < |matrix[i]| && Abs(matrix[i][k]) == scale;
        assert Abs(matrix[..i + 1][i][k]) == scale;
      } else if scale != 1.0 {
        var p, q :| 0 <= p < i && 0 <= q < |matrix[..i][p]| && Abs(matrix[..i][p][q]) == scale;
        assert Abs(matrix[..i + 1][p][q]) == scale;
      }
    }
    assert matrix[..matrix.Length] == matrix[..];
  }

  // ---------------------------------------------------------------- row operations

  lemma SwapEquivalent(m: Matrix, b: Vector, i: nat, j: nat)
    requires IsMatrix(m, |b|, |b|) && i < |b| && j < |b|
    ensures Equivalent(m, b, m[i := m[j]][j := m[i]], b[i := b[j]][j := b[i]])
  {
    var m', b' := m[i := m[j]][j := m[i]], b[i := b[j]][j := b[i]];
    forall x
      ensures Solves(m, b, x) <==> Solves(m', b', x)
    {
      if Solves(m', b', x) {
        forall r | 0 <= r < |b|
          ensures Dot(m[r], x) == b[r]
        {
          var r' := if r == i then j else if r == j then i else r;
          assert m'[r'] == m[r] && b'[r'] == b[r];
          assert Dot(m'[r'], x) == b'[r'];
        }
      }
    }
  }

  /** Subtracting a multiple of row `p` from row `r` keeps the solutions. */
  lemma RowAddEquivalent(m: Matrix, b: Vector, p: nat, r: nat, f: real, row: Vector)
    requires IsMatrix(m, |b|, |b|) && p < |b| && r < |b| && p != r
    requires |row| == |b| && forall k :: 0 <= k < |b| ==> row[k] == Less(m[r][k], f, m[p][k])
    ensures Equivalent(m, b, m[r := row], b[r := Less(b[r], f, b[p])])
  {
    var m', b' := m[r := row], b[r := Less(b[r], f, b[p])];
    forall x
      ensures Solves(m, b, x) <==> Solves(m', b', x)
    {
      if |x| == |b| {
        assert Dot(row, x) == Dot(m[r], x) - f * Dot(m[p], x) by {
          DotRangeCombine(m[r], m[p], -f, row, x, 0, |b|);
        }
        hide Dot;
        assert m'[p] == m[p] && b'[p] == b[p];
        if Solves(m', b', x) {
          assert Dot(m'[p], x) == b[p];
          assert Dot(m'[r], x) == b'[r];
          forall i | 0 <= i < |b|
            ensures Dot(m[i], x) == b[i]
          {
            if i != r {
              assert Dot(m'[i], x) == b'[i];
            }
          }
        }
        if Solves(m, b, x) {
          assert Dot(m[p], x) == b[p] && Dot(m[r], x) == b[r];
        }
      }
    }
  }

  lemma EquivalentTransitive(m: Matrix, b: Vector, m': Matrix, b': Vector, m'': Matrix, b'': Vector)
    requires Equivalent(m, b, m', b') && Equivalent(m', b', m'', b'')
    ensures Equivalent(m, b, m'', b'')
  {
    forall x
      ensures Solves(m, b, x) <==> Solves(m'', b'', x)
    {
      assert Solves(m, b, x) <==> Solves(m', b', x);
    }
  }

  // ---------------------------------------------------------------- elimination

  /** The last row at or below `column` whose entry there is largest. */
  method FindPivot(matrix: array<Vector>, column: nat) returns (pivot: nat)
    requires column < matrix.Length
    requires IsMatrix(matrix[..], matrix.Length, matrix.Length)
    ensures column <= pivot < matrix.Length
    ensures forall r :: column <= r < matrix.Length ==> Abs(matrix[..][r][column]) <= Abs(matrix[..][pivot][column])
    ensures forall r :: pivot < r < matrix.Length ==> Abs(matrix[..][r][column]) < Abs(matrix[..][pivot][column])
    ensures pivot == Pivot(matrix[..], matrix.Length, column, matrix.Length)
  {
    ghost var m := matrix[..];
    pivot := column;
    for r := column + 1 to matrix.Length
      invariant pivot == Pivot(m, matrix.Length, column, r)
    {
      assert m[r] == matrix[r] && m[pivot] == matrix[pivot];
      if Abs(matrix[r][column]) >= Abs(matrix[pivot][column]) {
        pivot := r;
      }
    }
  }

  /** One row below the pivot row: the pivot column is set to zero and only
      the columns after it are updated. */
  method EliminateRow(row: Vector, pivotRow: Vector, column: nat) returns (r: Vector, factor: real)
    requires |row| == |pivotRow| && column < |row|
    requires pivotRow[column] != 0.0
    requires forall k :: 0 <= k < column ==> row[k] == 0.0 && pivotRow[k] == 0.0
    ensures |r| == |row|
    ensures factor == row[column] / pivotRow[column]
    ensures r[column] == 0.0
    ensures forall k :: 0 <= k < |row| ==> r[k] == Less(row[k], factor, pivotRow[k])
  {
    factor := row[column] / pivotRow[column];
    r := row[column := 0.0];
    for k := column + 1 to |row|
      invariant |r| == |row|
      invariant forall i :: column < i < k ==> r[i] == row[i] - factor * pivotRow[i]
      invariant forall i :: 0 <= i < |row| && (i < column || k <= i) ==> r[i] == row[i]
      invariant r[column] == 0.0
    {
      r := r[k := r[k] - factor * pivotRow[k]];
    }
    assert factor * pivotRow[column] == row[column];
  }

  /** The rows above `done` are cleared, the others are as they were. */
  ghost predicate ClearedTo(s: System, t: System, column: nat, done: nat)
    requires IsSystem(s) && column < |s.b| && s.m[column][column] != 0.0
  {
    && IsSystem(t) && |t.b| == |s.b|
    && (forall r :: 0 <= r < |s.b| && r < done ==> t.m[r] == Cleared(s, column).m[r] && t.b[r] == Cleared(s, column).b[r])
    && (forall r :: 0 <= r < |s.b| && done <= r ==> t.m[r] == s.m[r] && t.b[r] == s.b[r])
  }

  /** Row `row` replaced by its cleared form. */
  ghost function RowCleared(t: System, row: nat, reduced: Vector, factor: real, column: nat): System
    requires IsSystem(t) && row < |t.b| && column < |t.b|
  {
    System(t.m[row := reduced], t.b[row := Less(t.b[row], factor, t.b[column])])
  }

  lemma ClearedRowStep(s: System, t: System, column: nat, row: nat, reduced: Vector)
    requires IsSystem(s) && column < row < |s.b| && s.m[column][column] != 0.0 && ClearedTo(s, t, column, row)
    requires |reduced| == |s.b|
    requires forall k :: 0 <= k < |s.b| ==> reduced[k] == Less(s.m[row][k], Factor(s.m, |s.b|, column, row), s.m[column][k])
    ensures ClearedTo(s, RowCleared(t, row, reduced, Factor(s.m, |s.b|, column, row), column), column, row + 1)
    ensures Equivalent(s.m, s.b, t.m, t.b) ==>
              var u := RowCleared(t, row, reduced, Factor(s.m, |s.b|, column, row), column);
              Equivalent(s.m, s.b, u.m, u.b)
  {
    hide Factor, Less, Equivalent;
    assert reduced == ClearedRow(s.m, |s.b|, column, row);
    hide ClearedRow;
    var u := RowCleared(t, row, reduced, Factor(s.m, |s.b|, column, row), column);
    if Equivalent(s.m, s.b, t.m, t.b) {
      RowAddEquivalent(t.m, t.b, column, row, Factor(s.m, |s.b|, column, row), reduced);
      EquivalentTransitive(s.m, s.b, t.m, t.b, u.m, u.b);
    }
  }

  lemma AllCleared(s: System, t: System, column: nat)
    requires IsSystem(s) && column < |s.b| && s.m[column][column] != 0.0 && ClearedTo(s, t, column, |s.b|)
    ensures t == Cleared(s, column)
  {
    hide Cleared;
    assert t.m == Cleared(s, column).m && t.b == Cleared(s, column).b;
  }

  /** Clears `column` below the diagonal and keeps the solutions. */
  method EliminateBelow(matrix: array<Vector>, rhs: array<real>, column: nat)
    requires rhs.Length == matrix.Length && column < matrix.Length
    requires IsMatrix(matrix[..], rhs.Length, rhs.Length)
    requires Reduced(matrix[..], rhs.Length, column)
    requires matrix[..][column][column] != 0.0
    modifies matrix, rhs
    ensures Equivalent(old(matrix[..]), old(rhs[..]), matrix[..], rhs[..])
    ensures System(matrix[..], rhs[..]) == Cleared(System(old(matrix[..]), old(rhs[..])), column)
    ensures Reduced(matrix[..], rhs.Length, column + 1)
  {
    var n := matrix.Length;
    var pivotRow, pivotRhs := matrix[column], rhs[column];
    ghost var s := System(matrix[..], rhs[..]);
    assert s.m[column] == pivotRow && s.b[column] == pivotRhs;
    ClearedStart(s, column);
    ClearReduced(s, column);
    EquivalentSelf(s.m, s.b);
    hide ClearedTo, Cleared, Equivalent, Reduced, Less;
    for row := column + 1 to n
      invariant IsMatrix(matrix[..], n, n)
      invariant ClearedTo(s, System(matrix[..], rhs[..]), column, row)
      invariant Equivalent(s.m, s.b, matrix[..], rhs[..])
    {
      ghost var t := System(matrix[..], rhs[..]);
      ClearedLater(s, t, column, row);
      assert t.m[row] == matrix[row];
      PivotRowLeadingZeros(s.m, n, column, row);
      var reduced, factor := EliminateRow(matrix[row], pivotRow, column);
      assert factor == Factor(s.m, n, column, row);
      hide Factor;
      matrix[row] := reduced;
      rhs[row] := Less(rhs[row], factor, pivotRhs);
      ClearedRowStep(s, t, column, row, reduced);
      assert System(matrix[..], rhs[..]) == RowCleared(t, row, reduced, factor, column);
    }
    AllCleared(s, System(matrix[..], rhs[..]), column);
  }

  lemma ClearedStart(s: System, column: nat)
    requires IsSystem(s) && column < |s.b| && s.m[column][column] != 0.0
    ensures ClearedTo(s, s, column, column + 1)
  {
  }

  /** Rows not reached yet, and the pivot row, are unchanged. */
  lemma ClearedLater(s: System, t: System, column: nat, row: nat)
    requires IsSystem(s) && column < row < |s.b| && s.m[column][column] != 0.0 && ClearedTo(s, t, column, row)
    ensures IsSystem(t) && |t.b| == |s.b|
    ensures t.m[row] == s.m[row] && t.b[row] == s.b[row] && t.m[column] == s.m[column] && t.b[column] == s.b[column]
  {
  }

  lemma EquivalentSelf(m: Matrix, b: Vector)
    requires IsMatrix(m, |b|, |b|)
    ensures Equivalent(m, b, m, b)
  {
  }

  lemma PivotRowLeadingZeros(m: Matrix, n: nat, done: nat, row: nat)
    requires IsMatrix(m, n, n) && done <= row < n && Reduced(m, n, done)
    ensures forall k :: 0 <= k < done ==> m[row][k] == 0.0 && m[done][k] == 0.0
  {
  }

  // ---------------------------------------------------------------- back substitution

  /** Two solutions of a triangular system agree from the last row upwards. */
  lemma {:induction false} TriangularUnique(m: Matrix, b: Vector, x: Vector, y: Vector, from: nat)
    requires IsMatrix(m, |b|, |b|) && Reduced(m, |b|, |b|)
    requires Solves(m, b, x) && Solves(m, b, y)
    requires from <= |b|
    ensures forall k :: from <= k < |b| ==> x[k] == y[k]
    decreases |b| - from
  {
    hide Dot, DotRange;
    if from < |b| {
      TriangularUnique(m, b, x, y, from + 1);
      TriangularRow(m, |b|, |b|, from, x);
      TriangularRow(m, |b|, |b|, from, y);
      DotRangeSame(m[from], m[from], x, y, from + 1, |b|);
      assert Dot(m[from], x) == b[from];
      assert Dot(m[from], y) == b[from];
      assert DotRange(m[from], x, from + 1, |b|) == DotRange(m[from], y, from + 1, |b|);
      CancelFactor(m[from][from], x[from], y[from]);
    }
  }

  method BackSubstitute(matrix: array<Vector>, rhs: array<real>) returns (solution: Vector)
    requires rhs.Length == matrix.Length
    requires IsMatrix(matrix[..], rhs.Length, rhs.Length)
    requires Reduced(matrix[..], rhs.Length, rhs.Length)
    ensures Solves(matrix[..], rhs[..], solution)
    ensures forall y :: Solves(matrix[..], rhs[..], y) ==> y == solution
  {
    var n := matrix.Length;
    ghost var m, b := matrix[..], rhs[..];
    solution := seq(n, _ => 0.0);
    for row := n downto 0
      invariant |solution| == n
      invariant forall i :: row <= i < n ==> Dot(m[i], solution) == b[i]
    {
      assert matrix[row] == m[row] && rhs[row] == b[row];
      var known := 0.0;
      for column := row + 1 to n
        invariant known == DotRange(m[row], solution, row + 1, column)
      {
        known := known + matrix[row][column] * solution[column];
      }
      assert m[row][row] != 0.0;
      var value := (rhs[row] - known) / matrix[row][row];
      DivideBack(m[row][row], b[row] - known);
      BackStep(m, b, n, row, solution, value);
      solution := solution[row := value];
    }
    forall y | Solves(m, b, y)
      ensures y == solution
    {
      TriangularUnique(m, b, y, solution, 0);
    }
  }

  // ---------------------------------------------------------------- solver

  /** What a pivot has to exceed. */
  function Threshold(scale: real, tolerance: real): real {
    scale * tolerance
  }

  /** Elimination of (m, b) is refused at this relative tolerance. */
  ghost predicate NoUsablePivot(m: Matrix, b: Vector, tolerance: real)
    requires IsMatrix(m, |b|, |b|)
  {
    exists scale :: IsScale(m, scale) && Refused(System(m, b), Threshold(scale, tolerance))
  }

  lemma AtScale(m: Matrix, b: Vector, tolerance: real, scale: real)
    requires IsMatrix(m, |b|, |b|) && IsScale(m, scale)
    ensures NoUsablePivot(m, b, tolerance) <==> Refused(System(m, b), Threshold(scale, tolerance))
  {
    hide Refused;
    forall t | IsScale(m, t)
      ensures t == scale
    {
      ScaleUnique(m, t, scale);
    }
  }

  /** A refusal means that the matrix is within the threshold of a singular one. */
  lemma RefusalNearlySingular(m: Matrix, b: Vector, tolerance: real, scale: real)
    requires IsMatrix(m, |b|, |b|) && tolerance >= 0.0 && IsScale(m, scale) && NoUsablePivot(m, b, tolerance)
    ensures NearlySingular(m, |b|, Threshold(scale, tolerance))
  {
    hide Refused, NearlySingular;
    AtScale(m, b, tolerance, scale);
    ThresholdNotNegative(m, scale, tolerance);
    RefusedNearlySingular(System(m, b), Threshold(scale, tolerance));
  }

  /** The pivot search decides whether a column is blocked. */
  lemma PivotDecides(s: System, column: nat, threshold: real)
    requires IsSystem(s) && column < |s.b|
    ensures Blocked(s, column, threshold) <==> Abs(s.m[Pivot(s.m, |s.b|, column, |s.b|)][column]) <= threshold
  {
  }

  /** Where the loop stands: `columns` columns done, none of them blocked. */
  ghost predicate Standing(s: System, t: System, threshold: real, columns: nat) {
    && IsSystem(s) && columns <= |s.b|
    && t == After(s, columns)
    && Open(s, threshold, columns)
    && Reduced(t.m, |s.b|, columns)
    && Equivalent(s.m, s.b, t.m, t.b)
  }

  lemma StandingStep(s: System, t: System, threshold: real, column: nat, swapped: System, cleared: System)
    requires threshold >= 0.0 && Standing(s, t, threshold, column) && column < |s.b| && !Blocked(t, column, threshold)
    requires swapped == Swapped(t, column, Pivot(t.m, |s.b|, column, |s.b|)) && swapped.m[column][column] != 0.0
    requires cleared == Cleared(swapped, column) && Equivalent(swapped.m, swapped.b, cleared.m, cleared.b)
    ensures Standing(s, cleared, threshold, column + 1)
  {
    hide Cleared, Equivalent, Reduced, Blocked;
    var p := Pivot(t.m, |s.b|, column, |s.b|);
    assert cleared == Advance(t, column);
    AdvanceReduced(t, column, threshold);
    SwapEquivalent(t.m, t.b, column, p);
    EquivalentTransitive(s.m, s.b, t.m, t.b, swapped.m, swapped.b);
    EquivalentTransitive(s.m, s.b, swapped.m, swapped.b, cleared.m, cleared.b);
  }

  /** A returned vector is the one and only solution of the system that was
      passed in. It is refused exactly when elimination with partial pivoting
      meets a column without an entry above the threshold; then the matrix is
      within the threshold of a singular one, and with a tolerance of zero the
      refusals are exactly the singular matrices. */
  method SolveDense(matrix: array<Vector>, rhs: array<real>, tolerance: real) returns (r: Result<Vector, FeaError>)
    requires rhs.Length == matrix.Length
    requires IsMatrix(matrix[..], rhs.Length, rhs.Length)
    requires tolerance >= 0.0
    modifies matrix, rhs
    ensures r.Ok? ==> Solves(old(matrix[..]), old(rhs[..]), r.value)
    ensures r.Ok? ==> forall y :: Solves(old(matrix[..]), old(rhs[..]), y) ==> y == r.value
    ensures r.Err? ==> r.error == SingularSystem
    ensures r.Err? <==> NoUsablePivot(old(matrix[..]), old(rhs[..]), tolerance)
    ensures r.Err? ==> forall scale :: IsScale(old(matrix[..]), scale) ==> NearlySingular(old(matrix[..]), rhs.Length, Threshold(scale, tolerance))
    ensures tolerance == 0.0 ==> (r.Err? <==> Singular(old(matrix[..]), rhs.Length))
  {
    hide Refused, NearlySingular, Singular, Solves, Equivalent, Reduced, Cleared, Blocked, IsScale, Threshold, NoUsablePivot, Standing;
    var n := matrix.Length;
    ghost var s := System(matrix[..], rhs[..]);
    var scale := MaxAbsEntry(matrix);
    var threshold := Threshold(scale, tolerance);
    ThresholdNotNegative(s.m, scale, tolerance);
    AtScale(s.m, s.b, tolerance, scale);
    RefusalMeans(s, tolerance, scale);
    StandingStart(s, threshold);
    for column := 0 to n
      invariant IsMatrix(matrix[..], n, n)
      invariant Standing(s, System(matrix[..], rhs[..]), threshold, column)
    {
      var pivot := FindPivot(matrix, column);
      ghost var t := System(matrix[..], rhs[..]);
      assert t.m[pivot] == matrix[pivot];
      StandingReduced(s, t, threshold, column);
      PivotDecides(t, column, threshold);
      if Abs(matrix[pivot][column]) <= threshold {
        StandingRefused(s, t, threshold, column);
        return Err(SingularSystem);
      }
      matrix[column], matrix[pivot] := matrix[pivot], matrix[column];
      rhs[column], rhs[pivot] := rhs[pivot], rhs[column];
      ghost var swapped := System(matrix[..], rhs[..]);
      assert swapped.m == t.m[column := t.m[pivot]][pivot := t.m[column]];
      assert swapped.b == t.b[column := t.b[pivot]][pivot := t.b[column]];
      SwapReduced(t, column, pivot);
      EliminateBelow(matrix, rhs, column);
      StandingStep(s, t, threshold, column, swapped, System(matrix[..], rhs[..]));
    }
    StandingDone(s, System(matrix[..], rhs[..]), threshold);
    var solution := BackSubstitute(matrix, rhs);
    return Ok(solution);
  }

  lemma ThresholdNotNegative(m: Matrix, scale: real, tolerance: real)
    requires IsScale(m, scale) && tolerance >= 0.0
    ensures Threshold(scale, tolerance) >= 0.0
  {
  }

  lemma StandingStart(s: System, threshold: real)
    requires IsSystem(s)
    ensures Standing(s, s, threshold, 0)
  {
    EquivalentSelf(s.m, s.b);
  }

  lemma StandingReduced(s: System, t: System, threshold: real, column: nat)
    requires Standing(s, t, threshold, column)
    ensures IsSystem(t) && |t.b| == |s.b| && column <= |s.b| && Reduced(t.m, |s.b|, column)
  {
    hide After, Blocked;
  }

  lemma StandingRefused(s: System, t: System, threshold: real, column: nat)
    requires Standing(s, t, threshold, column) && column < |s.b| && Blocked(t, column, threshold)
    ensures Refused(s, threshold)
  {
    hide After, Blocked;
  }

  lemma StandingDone(s: System, t: System, threshold: real)
    requires Standing(s, t, threshold, |s.b|)
    ensures !Refused(s, threshold) && Reduced(t.m, |s.b|, |s.b|)
    ensures forall x :: Solves(s.m, s.b, x) <==> Solves(t.m, t.b, x)
  {
    hide After, Blocked, Solves, Reduced;
  }

  lemma RefusalMeans(s: System, tolerance: real, scale: real)
    requires IsSystem(s) && tolerance >= 0.0 && IsScale(s.m, scale)
    ensures Refused(s, Threshold(scale, tolerance)) ==> forall t :: IsScale(s.m, t) ==> NearlySingular(s.m, |s.b|, Threshold(t, tolerance))
    ensures tolerance == 0.0 ==> (Refused(s, Threshold(scale, tolerance)) <==> Singular(s.m, |s.b|))
  {
    hide Refused, NearlySingular, Singular, IsScale;
    AtScale(s.m, s.b, tolerance, scale);
    if Refused(s, Threshold(scale, tolerance)) {
      forall t | IsScale(s.m, t)
        ensures NearlySingular(s.m, |s.b|, Threshold(t, tolerance))
      {
        RefusalNearlySingular(s.m, s.b, tolerance, t);
      }
    }
    if tolerance == 0.0 {
      ZeroThresholdExact(s);
      assert Threshold(scale, tolerance) == 0.0;
    }
  }
}
