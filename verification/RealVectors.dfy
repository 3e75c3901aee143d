/** Vectors and matrices over the reals, and the finite sums that the
    finite-element kernel is made of. Rounding is outside the model. */
module RealVectors {

  type Vector = seq<real>
  type Matrix = seq<Vector>

  predicate IsMatrix(m: Matrix, rows: nat, cols: nat) {
    |m| == rows && forall i :: 0 <= i < rows ==> |m[i]| == cols
  }

  function Abs(x: real): (r: real)
    ensures r >= 0.0 && (r == x || r == -x)
  {
    if x < 0.0 then -x else x
  }

  lemma CancelFactor(d: real, x: real, y: real)
    requires d != 0.0 && d * x == d * y
    ensures x == y
  {
    assert d * (x - y) == 0.0;
  }

  lemma DivideBack(d: real, x: real)
    requires d != 0.0
    ensures d * (x / d) == x
  {
  }

  /** A product as one term. */
  function Product(x: real, y: real): real {
    x * y
  }

  lemma ProductNonNegative(x: real, y: real)
    requires x >= 0.0 && y >= 0.0
    ensures x * y >= 0.0
  {
  }

  lemma SquareNonNegative(x: real)
    ensures x * x >= 0.0
  {
  }

  function Square(x: real): real {
    x * x
  }

  /** A square as one term, for sums of squares. */
  lemma SquareSign(x: real)
    ensures Square(x) >= 0.0 && (x != 0.0 ==> Square(x) > 0.0)
  {
    if x > 0.0 {
      SameSigns(x, x, Square(x));
    } else if x < 0.0 {
      SameSigns(x, x, Square(x));
    }
  }

  lemma SameSigns(x: real, y: real, product: real)
    requires product == x * y && ((x > 0.0 && y > 0.0) || (x < 0.0 && y < 0.0))
    ensures product > 0.0
  {
  }

  /** The sum of a[k] * b[k] for lo <= k < hi. */
  function DotRange(a: Vector, b: Vector, lo: nat, hi: nat): real
    requires lo <= hi <= |a| && hi <= |b|
    decreases hi
  {
    if lo == hi then 0.0 else DotRange(a, b, lo, hi - 1) + a[hi - 1] * b[hi - 1]
  }

  function Dot(a: Vector, b: Vector): real
    requires |a| == |b|
  {
    DotRange(a, b, 0, |a|)
  }

  lemma {:induction false} DotRangeSplit(a: Vector, b: Vector, lo: nat, mid: nat, hi: nat)
    requires lo <= mid <= hi <= |a| && hi <= |b|
    ensures DotRange(a, b, lo, hi) == DotRange(a, b, lo, mid) + DotRange(a, b, mid, hi)
    decreases hi
  {
    if mid < hi {
      DotRangeSplit(a, b, lo, mid, hi - 1);
    }
  }

  lemma {:induction false} DotRangeSame(a: Vector, a': Vector, b: Vector, b': Vector, lo: nat, hi: nat)
    requires lo <= hi <= |a| && hi <= |b| && hi <= |a'| && hi <= |b'|
    requires forall k :: lo <= k < hi ==> a[k] == a'[k]
    requires forall k :: lo <= k < hi ==> b[k] == b'[k]
    ensures DotRange(a, b, lo, hi) == DotRange(a', b', lo, hi)
    decreases hi
  {
    if lo < hi {
      DotRangeSame(a, a', b, b', lo, hi - 1);
    }
  }

  lemma {:induction false} DotRangeZero(a: Vector, b: Vector, lo: nat, hi: nat)
    requires lo <= hi <= |a| && hi <= |b|
    requires forall k :: lo <= k < hi ==> a[k] == 0.0
    ensures DotRange(a, b, lo, hi) == 0.0
    decreases hi
  {
    if lo < hi {
      DotRangeZero(a, b, lo, hi - 1);
    }
  }

  lemma {:induction false} DotRangeCommutes(a: Vector, b: Vector, lo: nat, hi: nat)
    requires lo <= hi <= |a| && hi <= |b|
    ensures DotRange(a, b, lo, hi) == DotRange(b, a, lo, hi)
    decreases hi
  {
    if lo < hi {
      DotRangeCommutes(a, b, lo, hi - 1);
    }
  }

  /** A sum is linear in its left vector. */
  lemma {:induction false} DotRangeCombine(a: Vector, p: Vector, f: real, c: Vector, b: Vector, lo: nat, hi: nat)
    requires lo <= hi <= |a| && hi <= |p| && hi <= |c| && hi <= |b|
    requires forall k :: lo <= k < hi ==> c[k] == a[k] + f * p[k]
    ensures DotRange(c, b, lo, hi) == DotRange(a, b, lo, hi) + f * DotRange(p, b, lo, hi)
    decreases hi
  {
    if lo < hi {
      DotRangeCombine(a, p, f, c, b, lo, hi - 1);
      var s, t := DotRange(p, b, lo, hi - 1), p[hi - 1] * b[hi - 1];
      assert c[hi - 1] * b[hi - 1] == a[hi - 1] * b[hi - 1] + f * t;
      assert f * (s + t) == f * s + f * t;
    }
  }

  /** Changing one entry of the left vector changes the sum by that entry's share. */
  lemma {:induction false} DotRangeUpdate(a: Vector, b: Vector, at: nat, value: real, lo: nat, hi: nat)
    requires lo <= hi <= |a| && hi <= |b| && at < |a|
    ensures DotRange(a[at := value], b, lo, hi)
         == DotRange(a, b, lo, hi) + (if lo <= at < hi then (value - a[at]) * b[at] else 0.0)
    decreases hi
  {
    if lo < hi {
      DotRangeUpdate(a, b, at, value, lo, hi - 1);
    }
  }
}
