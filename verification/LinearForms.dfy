/** Matrices as bilinear forms, and scatter-add of a local matrix into a
    global one. */
module LinearForms {
  import opened RealVectors

  /** Matrix times vector. */
  function Apply(m: Matrix, u: Vector): (r: Vector)
    requires IsMatrix(m, |m|, |u|)
    ensures |r| == |m|
  {
    seq(|m|, i requires 0 <= i < |m| => Dot(m[i], u))
  }

  /** The form v . (m u). */
  function Form(m: Matrix, v: Vector, u: Vector): real
    requires IsMatrix(m, |v|, |u|)
  {
    Dot(v, Apply(m, u))
  }

  function ZeroMatrix(n: nat): (m: Matrix)
    ensures IsMatrix(m, n, n)
  {
    seq(n, _ => seq(n, _ => 0.0))
  }

  lemma {:induction false} DotOfZero(v: Vector, w: Vector, hi: nat)
    requires hi <= |v| && hi <= |w| && forall k :: 0 <= k < hi ==> w[k] == 0.0
    ensures DotRange(v, w, 0, hi) == 0.0
  {
    DotRangeCommutes(v, w, 0, hi);
    DotRangeZero(w, v, 0, hi);
  }

  lemma ZeroForm(n: nat, v: Vector, u: Vector)
    requires |v| == n && |u| == n
    ensures Form(ZeroMatrix(n), v, u) == 0.0
  {
    forall i | 0 <= i < n
      ensures Apply(ZeroMatrix(n), u)[i] == 0.0
    {
      DotRangeZero(ZeroMatrix(n)[i], u, 0, n);
    }
    DotOfZero(v, Apply(ZeroMatrix(n), u), n);
  }

  // ---------------------------------------------------------------- linearity

  /** c is a + t * p, entry by entry. */
  ghost predicate Combination(c: Vector, a: Vector, t: real, p: Vector) {
    |c| == |a| == |p| && forall k :: 0 <= k < |a| ==> c[k] == a[k] + t * p[k]
  }

  lemma FormLeftLinear(m: Matrix, c: Vector, a: Vector, t: real, p: Vector, u: Vector)
    requires IsMatrix(m, |c|, |u|) && Combination(c, a, t, p)
    ensures Form(m, c, u) == Form(m, a, u) + t * Form(m, p, u)
  {
    DotRangeCombine(a, p, t, c, Apply(m, u), 0, |c|);
  }

  lemma FormRightLinear(m: Matrix, v: Vector, c: Vector, a: Vector, t: real, p: Vector)
    requires IsMatrix(m, |v|, |c|) && Combination(c, a, t, p)
    ensures Form(m, v, c) == Form(m, v, a) + t * Form(m, v, p)
  {
    var mc, ma, mp := Apply(m, c), Apply(m, a), Apply(m, p);
    forall i | 0 <= i < |m|
      ensures mc[i] == ma[i] + t * mp[i]
    {
      DotRangeCommutes(m[i], c, 0, |c|);
      DotRangeCommutes(m[i], a, 0, |c|);
      DotRangeCommutes(m[i], p, 0, |c|);
      DotRangeCombine(a, p, t, c, m[i], 0, |c|);
    }
    DotRangeCommutes(v, mc, 0, |v|);
    DotRangeCommutes(v, ma, 0, |v|);
    DotRangeCommutes(v, mp, 0, |v|);
    DotRangeCombine(ma, mp, t, mc, v, 0, |v|);
  }

  // ---------------------------------------------------------------- entries

  function Unit(n: nat, at: nat): (e: Vector)
    ensures |e| == n
  {
    seq(n, k => if k == at then 1.0 else 0.0)
  }

  lemma UnitDot(n: nat, at: nat, w: Vector)
    requires at < n == |w|
    ensures Dot(Unit(n, at), w) == w[at]
  {
    var e := Unit(n, at);
    DotRangeSplit(e, w, 0, at, n);
    DotRangeSplit(e, w, at, at + 1, n);
    DotRangeZero(e, w, 0, at);
    DotRangeZero(e, w, at + 1, n);
    assert DotRange(e, w, at, at + 1) == e[at] * w[at];
  }

  lemma FormEntry(m: Matrix, n: nat, i: nat, j: nat)
    requires IsMatrix(m, n, n) && i < n && j < n
    ensures Form(m, Unit(n, i), Unit(n, j)) == m[i][j]
  {
    UnitDot(n, i, Apply(m, Unit(n, j)));
    DotRangeCommutes(m[i], Unit(n, j), 0, n);
    UnitDot(n, j, m[i]);
  }

  ghost predicate Symmetric(m: Matrix, n: nat)
    requires IsMatrix(m, n, n)
  {
    forall i, j :: 0 <= i < n && 0 <= j < n ==> m[i][j] == m[j][i]
  }

  /** A symmetric form has a symmetric matrix. */
  lemma SymmetricFromForm(m: Matrix, n: nat)
    requires IsMatrix(m, n, n)
    requires forall v, u :: |v| == n && |u| == n ==> Form(m, v, u) == Form(m, u, v)
    ensures Symmetric(m, n)
  {
    forall i, j | 0 <= i < n && 0 <= j < n
      ensures m[i][j] == m[j][i]
    {
      FormEntry(m, n, i, j);
      FormEntry(m, n, j, i);
    }
  }

  // ---------------------------------------------------------------- scatter-add

  function AddAt(k: Matrix, i: nat, j: nat, x: real): (r: Matrix)
    requires i < |k| && j < |k[i]|
    ensures |r| == |k| && forall a :: 0 <= a < |k| ==> |r[a]| == |k[a]|
  {
    k[i := k[i][j := k[i][j] + x]]
  }

  lemma ShareOf(after: real, before: real, v: real, added: real)
    requires after == before + added
    ensures (after - before) * v == v * added
  {
  }

  lemma FormAddAt(k: Matrix, n: nat, i: nat, j: nat, x: real, v: Vector, u: Vector)
    requires IsMatrix(k, n, n) && i < n && j < n && |v| == n && |u| == n
    ensures Form(AddAt(k, i, j, x), v, u) == Form(k, v, u) + v[i] * (x * u[j])
  {
    var k' := AddAt(k, i, j, x);
    var w, w' := Apply(k, u), Apply(k', u);
    DotRangeUpdate(k[i], u, j, k[i][j] + x, 0, n);
    assert w'[i] == w[i] + x * u[j];
    assert w' == w[i := w'[i]];
    hide Apply, AddAt, DotRange;
    DotRangeUpdate(w, v, i, w'[i], 0, n);
    DotRangeCommutes(v, w, 0, n);
    DotRangeCommutes(v, w', 0, n);
    ShareOf(w'[i], w[i], v[i], x * u[j]);
  }

  /** Every local index names a global one. */
  predicate IsIndex(index: seq<nat>, n: nat) {
    forall a :: 0 <= a < |index| ==> index[a] < n
  }

  /** The entries of `u` that the local indices name. */
  function Gather(u: Vector, index: seq<nat>): (w: Vector)
    requires IsIndex(index, |u|)
    ensures |w| == |index|
  {
    seq(|index|, a requires 0 <= a < |index| => u[index[a]])
  }

  /** Adds the first `cols` entries of local row `a`. */
  function ScatterRow(k: Matrix, n: nat, index: seq<nat>, local: Matrix, a: nat, cols: nat): (r: Matrix)
    requires IsMatrix(k, n, n) && IsIndex(index, n) && IsMatrix(local, |index|, |index|)
    requires a < |index| && cols <= |index|
    ensures IsMatrix(r, n, n)
    decreases cols
  {
    if cols == 0 then k
    else AddAt(ScatterRow(k, n, index, local, a, cols - 1), index[a], index[cols - 1], local[a][cols - 1])
  }

  /** Adds the first `rows` local rows. */
  function ScatterRows(k: Matrix, n: nat, index: seq<nat>, local: Matrix, rows: nat): (r: Matrix)
    requires IsMatrix(k, n, n) && IsIndex(index, n) && IsMatrix(local, |index|, |index|)
    requires rows <= |index|
    ensures IsMatrix(r, n, n)
    decreases rows
  {
    if rows == 0 then k
    else ScatterRow(ScatterRows(k, n, index, local, rows - 1), n, index, local, rows - 1, |index|)
  }

  function Scatter(k: Matrix, n: nat, index: seq<nat>, local: Matrix): (r: Matrix)
    requires IsMatrix(k, n, n) && IsIndex(index, n) && IsMatrix(local, |index|, |index|)
    ensures IsMatrix(r, n, n)
  {
    ScatterRows(k, n, index, local, |index|)
  }

  lemma {:induction false} ScatterRowForm(k: Matrix, n: nat, index: seq<nat>, local: Matrix, a: nat, cols: nat, v: Vector, u: Vector)
    requires IsMatrix(k, n, n) && IsIndex(index, n) && IsMatrix(local, |index|, |index|)
    requires a < |index| && cols <= |index| && |v| == n && |u| == n
    ensures Form(ScatterRow(k, n, index, local, a, cols), v, u)
         == Form(k, v, u) + v[index[a]] * DotRange(local[a], Gather(u, index), 0, cols)
    decreases cols
  {
    if cols > 0 {
      ScatterRowForm(k, n, index, local, a, cols - 1, v, u);
      var x, w := local[a][cols - 1], Gather(u, index);
      FormAddAt(ScatterRow(k, n, index, local, a, cols - 1), n, index[a], index[cols - 1], x, v, u);
      var s := DotRange(local[a], w, 0, cols - 1);
      assert v[index[a]] * (s + x * w[cols - 1]) == v[index[a]] * s + v[index[a]] * (x * w[cols - 1]);
    }
  }

  lemma {:induction false} ScatterRowsForm(k: Matrix, n: nat, index: seq<nat>, local: Matrix, rows: nat, v: Vector, u: Vector)
    requires IsMatrix(k, n, n) && IsIndex(index, n) && IsMatrix(local, |index|, |index|)
    requires rows <= |index| && |v| == n && |u| == n
    ensures Form(ScatterRows(k, n, index, local, rows), v, u)
         == Form(k, v, u) + DotRange(Gather(v, index), Apply(local, Gather(u, index)), 0, rows)
    decreases rows
  {
    if rows > 0 {
      ScatterRowsForm(k, n, index, local, rows - 1, v, u);
      ScatterRowForm(ScatterRows(k, n, index, local, rows - 1), n, index, local, rows - 1, |index|, v, u);
    }
  }

  /** Scatter-add adds the local form, evaluated on the gathered vectors. */
  lemma ScatterForm(k: Matrix, n: nat, index: seq<nat>, local: Matrix, v: Vector, u: Vector)
    requires IsMatrix(k, n, n) && IsIndex(index, n) && IsMatrix(local, |index|, |index|)
    requires |v| == n && |u| == n
    ensures Form(Scatter(k, n, index, local), v, u)
         == Form(k, v, u) + Form(local, Gather(v, index), Gather(u, index))
  {
    ScatterRowsForm(k, n, index, local, |index|, v, u);
  }

  // ---------------------------------------------------------------- local forms

  /** local[i][j] == f * c[i] * c[j] */
  ghost predicate RankOne(local: Matrix, f: real, c: Vector) {
    && IsMatrix(local, |c|, |c|)
    && forall i, j :: 0 <= i < |c| && 0 <= j < |c| ==> local[i][j] == f * c[i] * c[j]
  }

  lemma {:induction false} ScaledDotRange(row: Vector, t: real, c: Vector, u: Vector, hi: nat)
    requires hi <= |row| && hi <= |c| && hi <= |u|
    requires forall k :: 0 <= k < hi ==> row[k] == t * c[k]
    ensures DotRange(row, u, 0, hi) == t * DotRange(c, u, 0, hi)
    decreases hi
  {
    if hi > 0 {
      ScaledDotRange(row, t, c, u, hi - 1);
      var s := DotRange(c, u, 0, hi - 1);
      assert t * (s + c[hi - 1] * u[hi - 1]) == t * s + t * c[hi - 1] * u[hi - 1];
    }
  }

  lemma RankOneForm(local: Matrix, f: real, c: Vector, v: Vector, u: Vector)
    requires RankOne(local, f, c) && |v| == |c| && |u| == |c|
    ensures Form(local, v, u) == f * Dot(c, v) * Dot(c, u)
  {
    var w, s := Apply(local, u), Dot(c, u);
    forall i | 0 <= i < |c|
      ensures w[i] == (f * s) * c[i]
    {
      ScaledDotRange(local[i], f * c[i], c, u, |c|);
      assert f * c[i] * s == (f * s) * c[i];
    }
    DotRangeCommutes(v, w, 0, |c|);
    ScaledDotRange(w, f * s, c, v, |c|);
    assert (f * s) * Dot(c, v) == f * Dot(c, v) * s;
  }

  function Column(b: Matrix, cols: nat, j: nat): (c: Vector)
    requires IsMatrix(b, |b|, cols) && j < cols
    ensures |c| == |b|
  {
    seq(|b|, r requires 0 <= r < |b| => b[r][j])
  }

  /** The product b u, summed over the first `hi` columns only. */
  function PartialApply(b: Matrix, u: Vector, hi: nat): (r: Vector)
    requires IsMatrix(b, |b|, |u|) && hi <= |u|
    ensures |r| == |b|
  {
    seq(|b|, r requires 0 <= r < |b| => DotRange(b[r], u, 0, hi))
  }

  /** local[i][j] == volume * (column i of b) . d (column j of b) */
  ghost predicate Congruent(local: Matrix, volume: real, d: Matrix, b: Matrix, n: nat) {
    && IsMatrix(local, n, n)
    && IsMatrix(b, |b|, n)
    && IsMatrix(d, |b|, |b|)
    && forall i, j :: 0 <= i < n && 0 <= j < n ==> local[i][j] == volume * Form(d, Column(b, n, i), Column(b, n, j))
  }

  lemma PartialStep(b: Matrix, u: Vector, hi: nat)
    requires IsMatrix(b, |b|, |u|) && hi < |u|
    ensures Combination(PartialApply(b, u, hi + 1), PartialApply(b, u, hi), u[hi], Column(b, |u|, hi))
  {
  }

  /** Row i of a congruent matrix sums to the form against the partial product. */
  lemma {:induction false} CongruentRow(local: Matrix, volume: real, d: Matrix, b: Matrix, i: nat, u: Vector, hi: nat)
    requires Congruent(local, volume, d, b, |u|) && i < |u| && hi <= |u|
    ensures DotRange(local[i], u, 0, hi) == volume * Form(d, Column(b, |u|, i), PartialApply(b, u, hi))
    decreases hi
  {
    hide Form;
    var ci := Column(b, |u|, i);
    if hi == 0 {
      FormOfZero(d, ci, PartialApply(b, u, 0));
    } else {
      CongruentRow(local, volume, d, b, i, u, hi - 1);
      PartialStep(b, u, hi - 1);
      var cj := Column(b, |u|, hi - 1);
      FormRightLinear(d, ci, PartialApply(b, u, hi), PartialApply(b, u, hi - 1), u[hi - 1], cj);
      var s, t, f := Form(d, ci, PartialApply(b, u, hi - 1)), Form(d, ci, cj), u[hi - 1];
      assert local[i][hi - 1] == volume * t;
      assert volume * (s + f * t) == volume * s + (volume * t) * f;
    }
  }

  lemma ZeroFormLeft(d: Matrix, z: Vector, u: Vector)
    requires IsMatrix(d, |z|, |u|) && forall k :: 0 <= k < |z| ==> z[k] == 0.0
    ensures Form(d, z, u) == 0.0
  {
    DotRangeZero(z, Apply(d, u), 0, |z|);
  }

  lemma FormOfZero(d: Matrix, v: Vector, z: Vector)
    requires IsMatrix(d, |v|, |z|) && forall k :: 0 <= k < |z| ==> z[k] == 0.0
    ensures Form(d, v, z) == 0.0
  {
    forall i | 0 <= i < |d|
      ensures Apply(d, z)[i] == 0.0
    {
      DotOfZero(d[i], z, |z|);
    }
    DotOfZero(v, Apply(d, z), |v|);
  }

  /** The form of a congruent matrix is the inner form of the two images. */
  lemma {:induction false} CongruentFormTo(local: Matrix, volume: real, d: Matrix, b: Matrix, v: Vector, u: Vector, hi: nat)
    requires Congruent(local, volume, d, b, |u|) && |v| == |u| && hi <= |u|
    ensures DotRange(v, Apply(local, u), 0, hi) == volume * Form(d, PartialApply(b, v, hi), Apply(b, u))
    decreases hi
  {
    hide Form;
    var y := Apply(b, u);
    assert y == PartialApply(b, u, |u|);
    if hi == 0 {
      ZeroFormLeft(d, PartialApply(b, v, 0), y);
    } else {
      CongruentFormTo(local, volume, d, b, v, u, hi - 1);
      CongruentRow(local, volume, d, b, hi - 1, u, |u|);
      PartialStep(b, v, hi - 1);
      var cj := Column(b, |u|, hi - 1);
      FormLeftLinear(d, PartialApply(b, v, hi), PartialApply(b, v, hi - 1), v[hi - 1], cj, y);
      var s, t, f := Form(d, PartialApply(b, v, hi - 1), y), Form(d, cj, y), v[hi - 1];
      assert Apply(local, u)[hi - 1] == volume * t;
      assert volume * (s + f * t) == volume * s + f * (volume * t);
    }
  }

  lemma CongruentForm(local: Matrix, volume: real, d: Matrix, b: Matrix, v: Vector, u: Vector)
    requires Congruent(local, volume, d, b, |u|) && |v| == |u|
    ensures Form(local, v, u) == volume * Form(d, Apply(b, v), Apply(b, u))
  {
    CongruentFormTo(local, volume, d, b, v, u, |u|);
    assert PartialApply(b, v, |u|) == Apply(b, v);
  }
}
