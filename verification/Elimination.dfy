/** Gaussian elimination with partial pivoting as a function of the system,
    and what it means that a column offers no pivot. */
module Elimination {
  import opened RealVectors

  datatype System = System(m: Matrix, b: Vector)

  ghost predicate IsSystem(s: System) {
    IsMatrix(s.m, |s.b|, |s.b|)
  }

  // ---------------------------------------------------------------- scale

  /** `scale` is the largest absolute entry of `m`, or one when that is larger. */
  ghost predicate IsScale(m: Matrix, scale: real) {
    && scale >= 1.0
    && (forall i, j :: 0 <= i < |m| && 0 <= j < |m[i]| ==> Abs(m[i][j]) <= scale)
    && (scale == 1.0 || exists i, j :: 0 <= i < |m| && 0 <= j < |m[i]| && Abs(m[i][j]) == scale)
  }

  lemma ScaleUnique(m: Matrix, s: real, t: real)
    requires IsScale(m, s) && IsScale(m, t)
    ensures s == t
  {
  }

  lemma {:induction false} RowScale(row: Vector, hi: nat, before: real) returns (scale: real)
    requires hi <= |row|
    ensures scale >= before && (forall j :: 0 <= j < hi ==> Abs(row[j]) <= scale)
    ensures scale == before || exists j :: 0 <= j < hi && Abs(row[j]) == scale
    decreases hi
  {
    if hi == 0 {
      scale := before;
    } else {
      scale := RowScale(row, hi - 1, before);
      if Abs(row[hi - 1]) > scale {
        scale := Abs(row[hi - 1]);
      }
    }
  }

  lemma {:induction false} ScaleExists(m: Matrix)
    ensures exists scale :: IsScale(m, scale)
    decreases |m|
  {
    if m == [] {
      assert IsScale(m, 1.0);
    } else {
      var n := |m| - 1;
      ScaleExists(m[..n]);
      var before :| IsScale(m[..n], before);
      var scale := RowScale(m[n], |m[n]|, before);
      assert m == m[..n] + [m[n]];
      if scale == before && scale != 1.0 {
        var i, j :| 0 <= i < n && 0 <= j < |m[..n][i]| && Abs(m[..n][i][j]) == scale;
        assert Abs(m[i][j]) == scale;
      }
      assert IsScale(m, scale);
    }
  }

  // ---------------------------------------------------------------- one column

  /** The last of the rows column..hi whose entry in `column` is largest. */
  function Pivot(m: Matrix, n: nat, column: nat, hi: nat): (p: nat)
    requires IsMatrix(m, n, n) && column < hi <= n
    ensures column <= p < hi
    ensures forall r :: column <= r < hi ==> Abs(m[r][column]) <= Abs(m[p][column])
    ensures forall r :: p < r < hi ==> Abs(m[r][column]) < Abs(m[p][column])
    decreases hi
  {
    if hi == column + 1 then column
    else
      var p := Pivot(m, n, column, hi - 1);
      if Abs(m[hi - 1][column]) >= Abs(m[p][column]) then hi - 1 else p
  }

  /** No entry of the column at or below the diagonal exceeds the threshold. */
  ghost predicate Blocked(s: System, column: nat, threshold: real)
    requires IsSystem(s) && column < |s.b|
  {
    forall r :: column <= r < |s.b| ==> Abs(s.m[r][column]) <= threshold
  }

  function Swapped(s: System, i: nat, j: nat): (t: System)
    requires IsMatrix(s.m, |s.b|, |s.b|) && i < |s.b| && j < |s.b|
    ensures IsMatrix(t.m, |s.b|, |s.b|) && |t.b| == |s.b|
  {
    System(s.m[i := s.m[j]][j := s.m[i]], s.b[i := s.b[j]][j := s.b[i]])
  }

  /** How often the pivot row is subtracted from row r. */
  function Factor(m: Matrix, n: nat, column: nat, r: nat): real
    requires IsMatrix(m, n, n) && column < n && r < n && m[column][column] != 0.0
  {
    m[r][column] / m[column][column]
  }

  function Less(x: real, factor: real, y: real): real {
    x - factor * y
  }

  function ClearedRow(m: Matrix, n: nat, column: nat, r: nat): (row: Vector)
    requires IsMatrix(m, n, n) && column < n && r < n && m[column][column] != 0.0
    ensures |row| == n
  {
    seq(n, k requires 0 <= k < n => Less(m[r][k], Factor(m, n, column, r), m[column][k]))
  }

  /** Every row below the diagonal minus its multiple of the pivot row. */
  function Cleared(s: System, column: nat): (t: System)
    requires IsMatrix(s.m, |s.b|, |s.b|) && column < |s.b| && s.m[column][column] != 0.0
    ensures IsMatrix(t.m, |s.b|, |s.b|) && |t.b| == |s.b|
  {
    var n := |s.b|;
    System(seq(n, r requires 0 <= r < n => if r <= column then s.m[r] else ClearedRow(s.m, n, column, r)),
           seq(n, r requires 0 <= r < n => if r <= column then s.b[r] else Less(s.b[r], Factor(s.m, n, column, r), s.b[column])))
  }

  /** One column: the largest pivot to the diagonal, then cleared below it. */
  function Advance(s: System, column: nat): (t: System)
    requires IsMatrix(s.m, |s.b|, |s.b|) && column < |s.b|
    ensures IsMatrix(t.m, |s.b|, |s.b|) && |t.b| == |s.b|
  {
    var n := |s.b|;
    var p := Pivot(s.m, n, column, n);
    if s.m[p][column] == 0.0 then s else Cleared(Swapped(s, column, p), column)
  }

  /** The system after the first `columns` columns. */
  function After(s: System, columns: nat): (t: System)
    requires IsMatrix(s.m, |s.b|, |s.b|) && columns <= |s.b|
    ensures IsMatrix(t.m, |s.b|, |s.b|) && |t.b| == |s.b|
    decreases columns
  {
    if columns == 0 then s else Advance(After(s, columns - 1), columns - 1)
  }

  /** Elimination meets a column without a pivot above the threshold. */
  ghost predicate Refused(s: System, threshold: real)
    requires IsSystem(s)
  {
    exists column :: 0 <= column < |s.b| && Blocked(After(s, column), column, threshold)
  }

  ghost predicate Open(s: System, threshold: real, columns: nat)
    requires IsSystem(s) && columns <= |s.b|
  {
    forall k :: 0 <= k < columns ==> !Blocked(After(s, k), k, threshold)
  }

  lemma {:induction false} FirstBlocked(s: System, threshold: real, column: nat) returns (first: nat)
    requires IsSystem(s) && column < |s.b| && Blocked(After(s, column), column, threshold)
    ensures first <= column && Blocked(After(s, first), first, threshold) && Open(s, threshold, first)
    decreases column
  {
    hide Blocked, After;
    if Open(s, threshold, column) {
      first := column;
    } else {
      var k :| 0 <= k < column && Blocked(After(s, k), k, threshold);
      first := FirstBlocked(s, threshold, k);
    }
  }

  // ---------------------------------------------------------------- reduced columns

  /** The first `done` columns are zero below a non-zero diagonal. */
  ghost predicate Reduced(m: Matrix, n: nat, done: nat)
    requires IsMatrix(m, n, n) && done <= n
  {
    && (forall r, c :: 0 <= c < done && c < r < n ==> m[r][c] == 0.0)
    && (forall c :: 0 <= c < done ==> m[c][c] != 0.0)
  }

  lemma SwapReduced(s: System, column: nat, p: nat)
    requires IsSystem(s) && column <= p < |s.b| && Reduced(s.m, |s.b|, column)
    ensures Reduced(Swapped(s, column, p).m, |s.b|, column)
  {
  }

  lemma ClearedEntry(m: Matrix, n: nat, column: nat, r: nat, c: nat)
    requires IsMatrix(m, n, n) && c <= column < r < n && Reduced(m, n, column) && m[column][column] != 0.0
    ensures ClearedRow(m, n, column, r)[c] == 0.0
  {
    hide Less, Factor;
    if c == column {
      FactorClears(m, n, column, r);
    } else {
      LessNothing(Factor(m, n, column, r));
    }
  }

  lemma LessNothing(factor: real)
    ensures Less(0.0, factor, 0.0) == 0.0
  {
  }

  lemma FactorClears(m: Matrix, n: nat, column: nat, r: nat)
    requires IsMatrix(m, n, n) && column < n && r < n && m[column][column] != 0.0
    ensures Less(m[r][column], Factor(m, n, column, r), m[column][column]) == 0.0
  {
  }

  lemma ClearReduced(s: System, column: nat)
    requires IsSystem(s) && column < |s.b| && Reduced(s.m, |s.b|, column) && s.m[column][column] != 0.0
    ensures Reduced(Cleared(s, column).m, |s.b|, column + 1)
  {
    hide ClearedRow;
    var n := |s.b|;
    forall r, c | 0 <= c < column + 1 && c < r < n
      ensures Cleared(s, column).m[r][c] == 0.0
    {
      if r > column {
        ClearedEntry(s.m, n, column, r, c);
      }
    }
  }

  /** A column with a pivot above a non-negative threshold is reduced. */
  lemma AdvanceReduced(s: System, column: nat, threshold: real)
    requires IsSystem(s) && column < |s.b| && Reduced(s.m, |s.b|, column)
    requires threshold >= 0.0 && !Blocked(s, column, threshold)
    ensures Reduced(Advance(s, column).m, |s.b|, column + 1)
  {
    hide Cleared, Reduced;
    var n := |s.b|;
    var p := Pivot(s.m, n, column, n);
    assert s.m[p][column] != 0.0;
    SwapReduced(s, column, p);
    ClearReduced(Swapped(s, column, p), column);
  }

  lemma {:induction false} OpenReduced(s: System, threshold: real, columns: nat)
    requires IsSystem(s) && columns <= |s.b| && threshold >= 0.0 && Open(s, threshold, columns)
    ensures Reduced(After(s, columns).m, |s.b|, columns)
    decreases columns
  {
    hide Advance, Blocked;
    if columns > 0 {
      OpenReduced(s, threshold, columns - 1);
      hide Reduced;
      AdvanceReduced(After(s, columns - 1), columns - 1, threshold);
    }
  }

  // ---------------------------------------------------------------- row sums

  /** In a reduced row the sum starts at the diagonal. */
  lemma TriangularRow(m: Matrix, n: nat, done: nat, row: nat, x: Vector)
    requires IsMatrix(m, n, n) && done <= n && Reduced(m, n, done) && row < done && |x| == n
    ensures Dot(m[row], x) == m[row][row] * x[row] + DotRange(m[row], x, row + 1, n)
  {
    DotRangeSplit(m[row], x, 0, row, n);
    DotRangeSplit(m[row], x, row, row + 1, n);
    DotRangeZero(m[row], x, 0, row);
    assert DotRange(m[row], x, row, row + 1) == m[row][row] * x[row];
  }

  /** A row below `row` has a zero there, so it does not see x[row]. */
  lemma RowUnaffected(m: Matrix, n: nat, done: nat, row: nat, i: nat, x: Vector, value: real)
    requires IsMatrix(m, n, n) && done <= n && Reduced(m, n, done) && row < done && row < i < n == |x|
    ensures Dot(m[i], x[row := value]) == Dot(m[i], x)
  {
    DotRangeCommutes(m[i], x, 0, n);
    DotRangeCommutes(m[i], x[row := value], 0, n);
    DotRangeUpdate(x, m[i], row, value, 0, n);
    assert m[i][row] == 0.0;
  }

  lemma RowSolved(m: Matrix, n: nat, done: nat, row: nat, x: Vector, value: real)
    requires IsMatrix(m, n, n) && done <= n && Reduced(m, n, done) && row < done && n == |x|
    ensures Dot(m[row], x[row := value]) == m[row][row] * value + DotRange(m[row], x, row + 1, n)
  {
    var x' := x[row := value];
    TriangularRow(m, n, done, row, x');
    DotRangeSame(m[row], m[row], x, x', row + 1, n);
  }

  /** Solving row `row` keeps the rows below it solved. */
  lemma BackStep(m: Matrix, b: Vector, done: nat, row: nat, before: Vector, value: real)
    requires IsMatrix(m, |b|, |b|) && done <= |b| && Reduced(m, |b|, done) && row < done && |b| == |before|
    requires m[row][row] * value == b[row] - DotRange(m[row], before, row + 1, |b|)
    requires forall i :: row < i < |b| ==> Dot(m[i], before) == b[i]
    ensures forall i :: row <= i < |b| ==> Dot(m[i], before[row := value]) == b[i]
  {
    hide Dot, DotRange, Reduced;
    RowSolved(m, |b|, done, row, before, value);
    forall i | row < i < |b|
      ensures Dot(m[i], before[row := value]) == b[i]
    {
      RowUnaffected(m, |b|, done, row, i, before, value);
    }
  }

  // ---------------------------------------------------------------- what a refusal means

  function Zeros(n: nat): (r: Vector)
    ensures |r| == n
  {
    seq(n, _ => 0.0)
  }

  /** A vector with an entry one that the matrix sends to almost nothing. */
  ghost predicate AlmostKernel(m: Matrix, n: nat, x: Vector, c: nat, threshold: real)
    requires IsMatrix(m, n, n)
  {
    && |x| == n && c < n && x[c] == 1.0
    && forall i :: 0 <= i < n ==> Abs(Dot(m[i], x)) <= threshold
  }

  /** The matrix is within the threshold of one that is not invertible. */
  ghost predicate NearlySingular(m: Matrix, n: nat, threshold: real)
    requires IsMatrix(m, n, n)
  {
    exists x, c :: AlmostKernel(m, n, x, c, threshold)
  }

  /** Some vector other than zero is sent to zero. */
  ghost predicate Singular(m: Matrix, n: nat)
    requires IsMatrix(m, n, n)
  {
    exists x :: Kernel(m, n, x) && x != Zeros(n)
  }

  ghost predicate Kernel(m: Matrix, n: nat, x: Vector)
    requires IsMatrix(m, n, n)
  {
    |x| == n && forall i :: 0 <= i < n ==> Dot(m[i], x) == 0.0
  }

  /** The rows above the blocked column are solved by a vector that has a one
      in that column; each row below sees its own entry there. */
  ghost predicate Solved(m: Matrix, n: nat, column: nat, x: Vector, row: nat)
    requires IsMatrix(m, n, n) && column < n
  {
    && |x| == n && x[column] == 1.0
    && (forall i :: row <= i < column ==> Dot(m[i], x) == 0.0)
    && (forall i :: column <= i < n ==> Dot(m[i], x) == m[i][column])
  }

  lemma UnitSees(row: Vector, column: nat, x: Vector)
    requires |x| == |row| && column < |row| && x == Zeros(|row|)[column := 1.0]
    ensures Dot(row, x) == row[column]
  {
    DotRangeCommutes(row, x, 0, |row|);
    DotRangeCommutes(row, Zeros(|row|), 0, |row|);
    DotRangeUpdate(Zeros(|row|), row, column, 1.0, 0, |row|);
    DotRangeZero(Zeros(|row|), row, 0, |row|);
  }

  lemma {:induction false} SolveAbove(m: Matrix, n: nat, column: nat, row: nat) returns (x: Vector)
    requires IsMatrix(m, n, n) && column < n && row <= column && Reduced(m, n, column)
    ensures Solved(m, n, column, x, row)
    decreases column - row
  {
    if row == column {
      x := Zeros(n)[column := 1.0];
      forall i | column <= i < n
        ensures Dot(m[i], x) == m[i][column]
      {
        UnitSees(m[i], column, x);
      }
    } else {
      var below := SolveAbove(m, n, column, row + 1);
      assert m[row][row] != 0.0;
      var rest := DotRange(m[row], below, row + 1, n);
      var value := -rest / m[row][row];
      DivideBack(m[row][row], -rest);
      hide Dot, DotRange, Reduced;
      x := below[row := value];
      RowSolved(m, n, column, row, below, value);
      forall i | row < i < n
        ensures Dot(m[i], x) == Dot(m[i], below)
      {
        RowUnaffected(m, n, column, row, i, below, value);
      }
    }
  }

  /** Rows already finished vanish on x, the others stay within the threshold. */
  ghost predicate Residues(s: System, x: Vector, columns: nat, threshold: real)
    requires IsSystem(s) && columns <= |s.b| == |x|
  {
    && (forall i :: 0 <= i < columns ==> Dot(s.m[i], x) == 0.0)
    && (forall i :: 0 <= i < |s.b| ==> Abs(Dot(s.m[i], x)) <= threshold)
  }

  lemma ClearedDot(m: Matrix, n: nat, column: nat, r: nat, x: Vector)
    requires IsMatrix(m, n, n) && column < n && r < n && m[column][column] != 0.0 && |x| == n
    ensures Dot(ClearedRow(m, n, column, r), x) == Dot(m[r], x) - Factor(m, n, column, r) * Dot(m[column], x)
  {
    hide Factor;
    DotRangeCombine(m[r], m[column], -Factor(m, n, column, r), ClearedRow(m, n, column, r), x, 0, n);
  }

  /** Undoing one column: clearing subtracted multiples of a row that vanishes,
      so the residues were the same, up to the swap. */
  lemma ResiduesBefore(s: System, x: Vector, column: nat, threshold: real)
    requires IsSystem(s) && column < |s.b| == |x| && threshold >= 0.0
    requires Residues(Advance(s, column), x, column + 1, threshold)
    ensures Residues(s, x, column, threshold)
  {
    hide Dot, ClearedRow, Factor;
    var n := |s.b|;
    var p := Pivot(s.m, n, column, n);
    if s.m[p][column] != 0.0 {
      var w := Swapped(s, column, p);
      var t := Cleared(w, column);
      assert t.m[column] == w.m[column];
      forall r | 0 <= r < n
        ensures Dot(w.m[r], x) == Dot(t.m[r], x)
      {
        if r > column {
          ClearedDot(w.m, n, column, r, x);
          assert t.m[r] == ClearedRow(w.m, n, column, r);
        }
      }
      forall i | 0 <= i < n
        ensures Abs(Dot(s.m[i], x)) <= threshold
        ensures i < column ==> Dot(s.m[i], x) == 0.0
      {
        var j := if i == column then p else if i == p then column else i;
        assert w.m[j] == s.m[i];
      }
    }
  }

  lemma {:induction false} ResiduesAtStart(s: System, x: Vector, columns: nat, threshold: real)
    requires IsSystem(s) && columns <= |s.b| == |x| && threshold >= 0.0
    requires Residues(After(s, columns), x, columns, threshold)
    ensures Residues(s, x, 0, threshold)
    decreases columns
  {
    hide Residues, Advance;
    if columns > 0 {
      ResiduesBefore(After(s, columns - 1), x, columns - 1, threshold);
      ResiduesAtStart(s, x, columns - 1, threshold);
    }
  }

  /** A refused matrix has a vector with an entry one that it sends to at most
      the threshold: it is that close to being singular. */
  lemma RefusedNearlySingular(s: System, threshold: real)
    requires IsSystem(s) && threshold >= 0.0 && Refused(s, threshold)
    ensures NearlySingular(s.m, |s.b|, threshold)
  {
    hide After, Dot;
    var n := |s.b|;
    var column :| 0 <= column < n && Blocked(After(s, column), column, threshold);
    var first := FirstBlocked(s, threshold, column);
    OpenReduced(s, threshold, first);
    var t := After(s, first);
    var x := SolveAbove(t.m, n, first, 0);
    assert Residues(t, x, first, threshold);
    ResiduesAtStart(s, x, first, threshold);
    assert AlmostKernel(s.m, n, x, first, threshold);
  }

  /** m' is m with one column changed by at most the threshold. */
  ghost predicate ColumnShifted(m: Matrix, m': Matrix, n: nat, c: nat, threshold: real) {
    && IsMatrix(m, n, n) && IsMatrix(m', n, n) && c < n
    && forall i :: 0 <= i < n ==> m'[i] == m[i][c := m'[i][c]] && Abs(m'[i][c] - m[i][c]) <= threshold
  }

  /** In other words, changing one column by at most the threshold makes the
      matrix singular. */
  lemma NearbySingular(m: Matrix, n: nat, threshold: real)
    requires IsMatrix(m, n, n) && NearlySingular(m, n, threshold)
    ensures exists m', c: nat :: ColumnShifted(m, m', n, c, threshold) && Singular(m', n)
  {
    var x, c: nat :| AlmostKernel(m, n, x, c, threshold);
    var m' := seq(n, i requires 0 <= i < n => m[i][c := m[i][c] - Dot(m[i], x)]);
    forall i | 0 <= i < n
      ensures Dot(m'[i], x) == 0.0
    {
      DotRangeUpdate(m[i], x, c, m[i][c] - Dot(m[i], x), 0, n);
    }
    hide Dot;
    assert Kernel(m', n, x) && x[c] != Zeros(n)[c];
    assert ColumnShifted(m, m', n, c, threshold);
  }

  // ---------------------------------------------------------------- a threshold of zero

  lemma KernelAdvances(s: System, x: Vector, column: nat)
    requires IsSystem(s) && column < |s.b| && Kernel(s.m, |s.b|, x)
    ensures Kernel(Advance(s, column).m, |s.b|, x)
  {
    hide Dot, ClearedRow, Factor;
    var n := |s.b|;
    var p := Pivot(s.m, n, column, n);
    if s.m[p][column] != 0.0 {
      var w := Swapped(s, column, p);
      var t := Cleared(w, column);
      forall r | 0 <= r < n
        ensures Dot(t.m[r], x) == 0.0
      {
        assert Dot(w.m[r], x) == 0.0;
        if r > column {
          ClearedDot(w.m, n, column, r, x);
          assert t.m[r] == ClearedRow(w.m, n, column, r);
        }
      }
    }
  }

  lemma {:induction false} KernelStays(s: System, x: Vector, columns: nat)
    requires IsSystem(s) && columns <= |s.b| && Kernel(s.m, |s.b|, x)
    ensures Kernel(After(s, columns).m, |s.b|, x)
    decreases columns
  {
    hide Kernel, Advance;
    if columns > 0 {
      KernelStays(s, x, columns - 1);
      KernelAdvances(After(s, columns - 1), x, columns - 1);
    }
  }

  lemma {:induction false} KernelVanishes(m: Matrix, n: nat, x: Vector, from: nat)
    requires IsMatrix(m, n, n) && Reduced(m, n, n) && Kernel(m, n, x) && from <= n
    ensures forall k :: from <= k < n ==> x[k] == 0.0
    decreases n - from
  {
    hide Dot, DotRange;
    if from < n {
      KernelVanishes(m, n, x, from + 1);
      TriangularRow(m, n, n, from, x);
      DotRangeCommutes(m[from], x, from + 1, n);
      DotRangeZero(x, m[from], from + 1, n);
      assert Dot(m[from], x) == 0.0;
      CancelFactor(m[from][from], x[from], 0.0);
    }
  }

  /** With a threshold of zero the refusals are exact: elimination is refused
      just when the matrix is singular. */
  lemma ZeroThresholdExact(s: System)
    requires IsSystem(s)
    ensures Refused(s, 0.0) <==> Singular(s.m, |s.b|)
  {
    hide After;
    var n := |s.b|;
    if Refused(s, 0.0) {
      RefusedNearlySingular(s, 0.0);
      var x, c: nat :| AlmostKernel(s.m, n, x, c, 0.0);
      hide Dot;
      assert Kernel(s.m, n, x);
      assert x[c] != Zeros(n)[c];
    } else {
      assert Open(s, 0.0, n);
      OpenReduced(s, 0.0, n);
      hide Dot;
      forall x | Kernel(s.m, n, x)
        ensures x == Zeros(n)
      {
        KernelStays(s, x, n);
        KernelVanishes(After(s, n).m, n, x, 0);
      }
    }
  }

  // ---------------------------------------------------------------- diagonal systems

  ghost predicate Diagonal(m: Matrix, n: nat)
    requires IsMatrix(m, n, n)
  {
    forall i, j :: 0 <= i < n && 0 <= j < n && i != j ==> m[i][j] == 0.0
  }

  lemma NoFactor(m: Matrix, n: nat, column: nat, r: nat)
    requires IsMatrix(m, n, n) && Diagonal(m, n) && column < r < n && m[column][column] != 0.0
    ensures ClearedRow(m, n, column, r) == m[r] && Factor(m, n, column, r) == 0.0
  {
    assert m[r][column] == 0.0;
  }

  lemma DiagonalCleared(s: System, column: nat)
    requires IsSystem(s) && Diagonal(s.m, |s.b|) && column < |s.b| && s.m[column][column] != 0.0
    ensures Cleared(s, column) == s
  {
    var (n, t) := (|s.b|, Cleared(s, column));
    forall r | 0 <= r < n
      ensures t.m[r] == s.m[r] && t.b[r] == s.b[r]
    {
      if r > column {
        NoFactor(s.m, n, column, r);
      }
    }
    hide Cleared;
    assert t.m == s.m && t.b == s.b;
  }

  /** A diagonal system has nothing to eliminate. */
  lemma DiagonalAdvance(s: System, column: nat)
    requires IsSystem(s) && Diagonal(s.m, |s.b|) && column < |s.b|
    ensures Advance(s, column) == s
  {
    hide Cleared;
    var p := Pivot(s.m, |s.b|, column, |s.b|);
    if s.m[p][column] != 0.0 {
      assert p == column;
      assert Swapped(s, column, column) == s;
      DiagonalCleared(s, column);
    }
  }

  lemma {:induction false} DiagonalAfter(s: System, columns: nat)
    requires IsSystem(s) && Diagonal(s.m, |s.b|) && columns <= |s.b|
    ensures After(s, columns) == s
    decreases columns
  {
    hide Advance;
    if columns > 0 {
      DiagonalAfter(s, columns - 1);
      DiagonalAdvance(s, columns - 1);
    }
  }

  /** It is refused exactly when a diagonal entry does not exceed the threshold. */
  lemma DiagonalRefused(s: System, threshold: real)
    requires IsSystem(s) && Diagonal(s.m, |s.b|) && threshold >= 0.0
    ensures Refused(s, threshold) <==> exists i :: 0 <= i < |s.b| && Abs(s.m[i][i]) <= threshold
  {
    forall column | 0 <= column < |s.b|
      ensures Blocked(After(s, column), column, threshold) <==> Abs(s.m[column][column]) <= threshold
    {
      DiagonalAfter(s, column);
    }
    hide After, Blocked;
  }
}
