/** Signed volume of an oriented mesh, and turning it outside out. */
module Volume {
  import opened RealVectors
  import opened Linalg
  import opened LinearForms
  import opened Mesh
  import Moments

  ghost predicate InRange(ts: seq<Tri>, n: nat) {
    forall t :: 0 <= t < |ts| ==> ts[t].a < n && ts[t].b < n && ts[t].c < n
  }

  function Six(vs: seq<Vec3>, t: Tri): real
    requires t.a < |vs| && t.b < |vs| && t.c < |vs|
  {
    Moments.Triple(vs[t.a], vs[t.b], vs[t.c])
  }

  /** Six times the signed volume of the first n triangles' cones. */
  function VolumeTo(vs: seq<Vec3>, ts: seq<Tri>, n: nat): real
    requires InRange(ts, |vs|) && n <= |ts|
    decreases n
  {
    if n == 0 then 0.0 else VolumeTo(vs, ts, n - 1) + Six(vs, ts[n - 1])
  }

  function VolumeTimesSix(vs: seq<Vec3>, ts: seq<Tri>): real
    requires InRange(ts, |vs|)
  {
    VolumeTo(vs, ts, |ts|)
  }

  // ---------------------------------------------------------------- sums over directed edges

  /** Entries of row and column k below `hi`. */
  function RimSum(w: Matrix, n: nat, k: nat, hi: nat): real
    requires IsMatrix(w, n, n) && hi <= k < n
    decreases hi
  {
    if hi == 0 then 0.0 else RimSum(w, n, k, hi - 1) + w[k][hi - 1] + w[hi - 1][k]
  }

  /** All entries of the leading k x k block. */
  function BlockSum(w: Matrix, n: nat, k: nat): real
    requires IsMatrix(w, n, n) && k <= n
    decreases k
  {
    if k == 0 then 0.0 else BlockSum(w, n, k - 1) + RimSum(w, n, k - 1, k - 1) + w[k - 1][k - 1]
  }

  lemma {:induction false} RimAddAt(w: Matrix, n: nat, i: nat, j: nat, x: real, k: nat, hi: nat)
    requires IsMatrix(w, n, n) && i < n && j < n && hi <= k < n
    ensures RimSum(AddAt(w, i, j, x), n, k, hi)
         == RimSum(w, n, k, hi) + (if (i == k && j < hi) || (j == k && i < hi) then x else 0.0)
    decreases hi
  {
    if hi > 0 {
      RimAddAt(w, n, i, j, x, k, hi - 1);
    }
  }

  lemma {:induction false} BlockAddAt(w: Matrix, n: nat, i: nat, j: nat, x: real, k: nat)
    requires IsMatrix(w, n, n) && i < n && j < n && k <= n
    ensures BlockSum(AddAt(w, i, j, x), n, k) == BlockSum(w, n, k) + (if i < k && j < k then x else 0.0)
    decreases k
  {
    if k > 0 {
      BlockAddAt(w, n, i, j, x, k - 1);
      RimAddAt(w, n, i, j, x, k - 1, k - 1);
      hide RimSum;
    }
  }

  ghost predicate Antisymmetric(w: Matrix, n: nat)
    requires IsMatrix(w, n, n)
  {
    forall i, j :: 0 <= i < n && 0 <= j < n ==> w[i][j] + w[j][i] == 0.0
  }

  lemma {:induction false} RimVanishes(w: Matrix, n: nat, k: nat, hi: nat)
    requires IsMatrix(w, n, n) && Antisymmetric(w, n) && hi <= k < n
    ensures RimSum(w, n, k, hi) == 0.0
    decreases hi
  {
    if hi > 0 {
      RimVanishes(w, n, k, hi - 1);
      assert w[k][hi - 1] + w[hi - 1][k] == 0.0;
    }
  }

  lemma {:induction false} BlockVanishes(w: Matrix, n: nat, k: nat)
    requires IsMatrix(w, n, n) && Antisymmetric(w, n) && k <= n
    ensures BlockSum(w, n, k) == 0.0
    decreases k
  {
    if k > 0 {
      BlockVanishes(w, n, k - 1);
      RimVanishes(w, n, k - 1, k - 1);
      assert w[k - 1][k - 1] + w[k - 1][k - 1] == 0.0;
    }
  }

  /** A quantity on ordered vertex pairs that changes sign with the order. */
  ghost predicate Odd(phi: (nat, nat) -> real) {
    forall u, v :: phi(u, v) + phi(v, u) == 0.0
  }

  function EdgeShare(phi: (nat, nat) -> real, t: Tri): real {
    phi(t.a, t.b) + phi(t.b, t.c) + phi(t.c, t.a)
  }

  function EdgeSumTo(phi: (nat, nat) -> real, ts: seq<Tri>, n: nat): real
    requires n <= |ts|
    decreases n
  {
    if n == 0 then 0.0 else EdgeSumTo(phi, ts, n - 1) + EdgeShare(phi, ts[n - 1])
  }

  /** phi collected per ordered pair. */
  function WeightsTo(phi: (nat, nat) -> real, ts: seq<Tri>, m: nat, n: nat): (w: Matrix)
    requires InRange(ts, m) && n <= |ts|
    ensures IsMatrix(w, m, m)
    decreases n
  {
    if n == 0 then ZeroMatrix(m)
    else
      var (w, t) := (WeightsTo(phi, ts, m, n - 1), ts[n - 1]);
      AddAt(AddAt(AddAt(w, t.a, t.b, phi(t.a, t.b)), t.b, t.c, phi(t.b, t.c)), t.c, t.a, phi(t.c, t.a))
  }

  lemma {:induction false} ZeroBlock(m: nat, k: nat)
    requires k <= m
    ensures BlockSum(ZeroMatrix(m), m, k) == 0.0
  {
    forall i, j | 0 <= i < m && 0 <= j < m
      ensures ZeroMatrix(m)[i][j] + ZeroMatrix(m)[j][i] == 0.0
    {
    }
    BlockVanishes(ZeroMatrix(m), m, k);
  }

  lemma {:induction false} BlockIsEdgeSum(phi: (nat, nat) -> real, ts: seq<Tri>, m: nat, n: nat)
    requires InRange(ts, m) && n <= |ts|
    ensures BlockSum(WeightsTo(phi, ts, m, n), m, m) == EdgeSumTo(phi, ts, n)
    decreases n
  {
    hide BlockSum, AddAt;
    if n == 0 {
      ZeroBlock(m, m);
    } else {
      BlockIsEdgeSum(phi, ts, m, n - 1);
      var w, t := WeightsTo(phi, ts, m, n - 1), ts[n - 1];
      var w1 := AddAt(w, t.a, t.b, phi(t.a, t.b));
      var w2 := AddAt(w1, t.b, t.c, phi(t.b, t.c));
      BlockAddAt(w, m, t.a, t.b, phi(t.a, t.b), m);
      BlockAddAt(w1, m, t.b, t.c, phi(t.b, t.c), m);
      BlockAddAt(w2, m, t.c, t.a, phi(t.c, t.a), m);
    }
  }

  lemma AddAtEntry(w: Matrix, i: nat, j: nat, x: real, u: nat, v: nat)
    requires i < |w| && j < |w[i]| && u < |w| && v < |w[u]|
    ensures AddAt(w, i, j, x)[u][v] == w[u][v] + (if i == u && j == v then x else 0.0)
  {
  }

  /** Each pair collects phi as often as the pair is used. */
  lemma {:induction false} WeightEntry(phi: (nat, nat) -> real, ts: seq<Tri>, m: nat, n: nat, u: nat, v: nat)
    requires InRange(ts, m) && n <= |ts| && u < m && v < m
    ensures WeightsTo(phi, ts, m, n)[u][v] == Times(UsesTo(ts, u, v, n), phi(u, v))
    decreases n
  {
    hide AddAt, TriUses, Times;
    NoTimes(phi(u, v));
    if n > 0 {
      WeightEntry(phi, ts, m, n - 1, u, v);
      var w, t := WeightsTo(phi, ts, m, n - 1), ts[n - 1];
      var w1 := AddAt(w, t.a, t.b, phi(t.a, t.b));
      var w2 := AddAt(w1, t.b, t.c, phi(t.b, t.c));
      AddAtEntry(w, t.a, t.b, phi(t.a, t.b), u, v);
      AddAtEntry(w1, t.b, t.c, phi(t.b, t.c), u, v);
      AddAtEntry(w2, t.c, t.a, phi(t.c, t.a), u, v);
      CountShares(UsesTo(ts, u, v, n - 1), t, u, v, phi(u, v));
    }
  }

  function Times(count: nat, x: real): real {
    count as real * x
  }

  lemma NoTimes(x: real)
    ensures Times(0, x) == 0.0
  {
  }

  lemma CountShares(count: nat, t: Tri, u: nat, v: nat, x: real)
    ensures Times(count + TriUses(t, u, v), x)
         == Times(count, x) + (if t.a == u && t.b == v then x else 0.0) + (if t.b == u && t.c == v then x else 0.0)
            + (if t.c == u && t.a == v then x else 0.0)
  {
  }

  /** Over a coherent mesh every odd quantity cancels. */
  lemma OddSumVanishes(phi: (nat, nat) -> real, ts: seq<Tri>, m: nat)
    requires InRange(ts, m) && Coherent(ts) && Odd(phi)
    ensures EdgeSumTo(phi, ts, |ts|) == 0.0
  {
    hide Times, WeightsTo;
    var n := |ts|;
    var w := WeightsTo(phi, ts, m, n);
    forall i, j | 0 <= i < m && 0 <= j < m
      ensures w[i][j] + w[j][i] == 0.0
    {
      WeightEntry(phi, ts, m, n, i, j);
      WeightEntry(phi, ts, m, n, j, i);
      assert i != j ==> Uses(ts, i, j) == Uses(ts, j, i);
      OppositeProducts(Uses(ts, i, j), phi(i, j), phi(j, i));
    }
    BlockVanishes(w, m, m);
    BlockIsEdgeSum(phi, ts, m, n);
  }

  lemma OppositeProducts(c: nat, x: real, y: real)
    requires x + y == 0.0
    ensures Times(c, x) + Times(c, y) == 0.0
  {
    assert c as real * (x + y) == 0.0;
  }

  // ---------------------------------------------------------------- the origin does not matter

  function Shifted(vs: seq<Vec3>, d: Vec3): (r: seq<Vec3>)
    ensures |r| == |vs|
  {
    seq(|vs|, i requires 0 <= i < |vs| => Add(vs[i], d))
  }

  /** d . (u x v) for two vertices. */
  function Swept(vs: seq<Vec3>, d: Vec3, u: nat, v: nat): real {
    if u < |vs| && v < |vs| then Moments.Triple(d, vs[u], vs[v]) else 0.0
  }

  function Sweeping(vs: seq<Vec3>, d: Vec3): (nat, nat) -> real {
    (u: nat, v: nat) => Swept(vs, d, u, v)
  }

  lemma ShiftScalars(a0: real, a1: real, a2: real, b0: real, b1: real, b2: real, c0: real, c1: real, c2: real, d0: real, d1: real, d2: real)
    ensures (a0 + d0) * (b1 + d1) * (c2 + d2) - (a0 + d0) * (b2 + d2) * (c1 + d1) + (a1 + d1) * (b2 + d2) * (c0 + d0)
          - (a1 + d1) * (b0 + d0) * (c2 + d2) + (a2 + d2) * (b0 + d0) * (c1 + d1) - (a2 + d2) * (b1 + d1) * (c0 + d0)
         == (a0 * b1 * c2 - a0 * b2 * c1 + a1 * b2 * c0 - a1 * b0 * c2 + a2 * b0 * c1 - a2 * b1 * c0)
          + (d0 * a1 * b2 - d0 * a2 * b1 + d1 * a2 * b0 - d1 * a0 * b2 + d2 * a0 * b1 - d2 * a1 * b0)
          + (d0 * b1 * c2 - d0 * b2 * c1 + d1 * b2 * c0 - d1 * b0 * c2 + d2 * b0 * c1 - d2 * b1 * c0)
          + (d0 * c1 * a2 - d0 * c2 * a1 + d1 * c2 * a0 - d1 * c0 * a2 + d2 * c0 * a1 - d2 * c1 * a0)
  {
  }

  lemma ShiftedTriple(a: Vec3, b: Vec3, c: Vec3, d: Vec3)
    ensures Moments.Triple(Add(a, d), Add(b, d), Add(c, d))
         == Moments.Triple(a, b, c) + Moments.Triple(d, a, b) + Moments.Triple(d, b, c) + Moments.Triple(d, c, a)
  {
    TripleExpanded(Add(a, d), Add(b, d), Add(c, d));
    TripleExpanded(a, b, c);
    TripleExpanded(d, a, b);
    TripleExpanded(d, b, c);
    TripleExpanded(d, c, a);
    hide Dot3, Cross;
    ShiftScalars(a.x, a.y, a.z, b.x, b.y, b.z, c.x, c.y, c.z, d.x, d.y, d.z);
  }

  lemma {:induction false} ShiftedVolumeTo(vs: seq<Vec3>, ts: seq<Tri>, d: Vec3, n: nat)
    requires InRange(ts, |vs|) && n <= |ts|
    ensures VolumeTo(Shifted(vs, d), ts, n) == VolumeTo(vs, ts, n) + EdgeSumTo(Sweeping(vs, d), ts, n)
    decreases n
  {
    hide Moments.Triple;
    if n > 0 {
      ShiftedVolumeTo(vs, ts, d, n - 1);
      var t := ts[n - 1];
      ShiftedTriple(vs[t.a], vs[t.b], vs[t.c], d);
    }
  }

  lemma SweptOdd(vs: seq<Vec3>, d: Vec3)
    ensures Odd(Sweeping(vs, d))
  {
    forall u: nat, v: nat
      ensures Swept(vs, d, u, v) + Swept(vs, d, v, u) == 0.0
    {
      if u < |vs| && v < |vs| {
        Moments.TripleSwap(d, vs[u], vs[v]);
      }
    }
  }

  /** The volume of a coherent mesh does not depend on the coordinate origin. */
  lemma VolumeIgnoresOrigin(vs: seq<Vec3>, ts: seq<Tri>, d: Vec3)
    requires InRange(ts, |vs|) && Coherent(ts)
    ensures VolumeTimesSix(Shifted(vs, d), ts) == VolumeTimesSix(vs, ts)
  {
    hide Coherent, Odd;
    ShiftedVolumeTo(vs, ts, d, |ts|);
    SweptOdd(vs, d);
    OddSumVanishes(Sweeping(vs, d), ts, |vs|);
  }

  // ---------------------------------------------------------------- what the sign means

  /** How far the point lies in front of the triangle, times twice its area:
      positive on the side from which the corners run counterclockwise. */
  function Height(vs: seq<Vec3>, t: Tri, p: Vec3): real
    requires t.a < |vs| && t.b < |vs| && t.c < |vs|
  {
    Dot3(Cross(Sub(vs[t.b], vs[t.a]), Sub(vs[t.c], vs[t.a])), Sub(p, vs[t.a]))
  }

  /** The sum of the heights of one point over the first n triangles. */
  function HeightsTo(vs: seq<Vec3>, ts: seq<Tri>, p: Vec3, n: nat): real
    requires InRange(ts, |vs|) && n <= |ts|
    decreases n
  {
    if n == 0 then 0.0 else HeightsTo(vs, ts, p, n - 1) + Height(vs, ts[n - 1], p)
  }

  lemma DotCommutes(a: Vec3, b: Vec3)
    ensures Dot3(a, b) == Dot3(b, a)
  {
  }

  /** A cone seen from its apex is a cone seen from its base. */
  lemma ConeHeight(vs: seq<Vec3>, t: Tri, p: Vec3)
    requires t.a < |vs| && t.b < |vs| && t.c < |vs|
    ensures Moments.Triple(Sub(vs[t.a], p), Sub(vs[t.b], p), Sub(vs[t.c], p)) == -Height(vs, t, p)
  {
    var (a, b, c) := (Sub(vs[t.a], p), Sub(vs[t.b], p), Sub(vs[t.c], p));
    var (u, v, w) := (Sub(vs[t.b], vs[t.a]), Sub(vs[t.c], vs[t.a]), Sub(p, vs[t.a]));
    DotCommutes(Cross(u, v), w);
    hide Dot3, Cross;
    Moments.TripleOrigin(a, b, c, w, u, v);
  }

  lemma {:induction false} VolumeFromPoint(vs: seq<Vec3>, ts: seq<Tri>, p: Vec3, n: nat)
    requires InRange(ts, |vs|) && n <= |ts|
    ensures VolumeTo(Shifted(vs, Vec3(-p.x, -p.y, -p.z)), ts, n) == -HeightsTo(vs, ts, p, n)
    decreases n
  {
    hide Moments.Triple, Height;
    if n > 0 {
      VolumeFromPoint(vs, ts, p, n - 1);
      ConeHeight(vs, ts[n - 1], p);
      var (t, d) := (ts[n - 1], Vec3(-p.x, -p.y, -p.z));
      assert Add(vs[t.a], d) == Sub(vs[t.a], p) && Add(vs[t.b], d) == Sub(vs[t.b], p) && Add(vs[t.c], d) == Sub(vs[t.c], p);
    }
  }

  /** Six times the volume of a coherent mesh is how far any one point lies
      behind its triangles, all in all. */
  lemma VolumeIsDepth(vs: seq<Vec3>, ts: seq<Tri>, p: Vec3)
    requires InRange(ts, |vs|) && Coherent(ts)
    ensures VolumeTimesSix(vs, ts) == -HeightsTo(vs, ts, p, |ts|)
  {
    hide Coherent;
    VolumeIgnoresOrigin(vs, ts, Vec3(-p.x, -p.y, -p.z));
    VolumeFromPoint(vs, ts, p, |ts|);
  }

  /** No vertex lies in front of a triangle. */
  ghost predicate Outward(vs: seq<Vec3>, ts: seq<Tri>)
    requires InRange(ts, |vs|)
  {
    forall t, v :: 0 <= t < |ts| && 0 <= v < |vs| ==> Height(vs, ts[t], vs[v]) <= 0.0
  }

  /** No vertex lies behind a triangle. */
  ghost predicate Inward(vs: seq<Vec3>, ts: seq<Tri>)
    requires InRange(ts, |vs|)
  {
    forall t, v :: 0 <= t < |ts| && 0 <= v < |vs| ==> Height(vs, ts[t], vs[v]) >= 0.0
  }

  lemma {:induction false} HeightsSign(vs: seq<Vec3>, ts: seq<Tri>, v: nat, n: nat)
    requires InRange(ts, |vs|) && n <= |ts| && v < |vs|
    ensures Outward(vs, ts) ==> HeightsTo(vs, ts, vs[v], n) <= 0.0
    ensures Inward(vs, ts) ==> HeightsTo(vs, ts, vs[v], n) >= 0.0
    ensures Inward(vs, ts) && HeightsTo(vs, ts, vs[v], n) <= 0.0 ==> forall t :: 0 <= t < n ==> Height(vs, ts[t], vs[v]) == 0.0
    decreases n
  {
    hide Height;
    if n > 0 {
      HeightsSign(vs, ts, v, n - 1);
    }
  }

  lemma VolumeSign(vs: seq<Vec3>, ts: seq<Tri>)
    requires InRange(ts, |vs|) && Coherent(ts)
    ensures Outward(vs, ts) ==> VolumeTimesSix(vs, ts) >= 0.0
    ensures Inward(vs, ts) && VolumeTimesSix(vs, ts) >= 0.0 ==> Outward(vs, ts)
  {
    hide Coherent, VolumeTimesSix, HeightsTo, Height;
    if |ts| == 0 {
      NoVolume(vs, ts);
    } else {
      VolumeIsDepth(vs, ts, vs[ts[0].a]);
      HeightsSign(vs, ts, ts[0].a, |ts|);
    }
    if Inward(vs, ts) && VolumeTimesSix(vs, ts) >= 0.0 {
      forall t, v | 0 <= t < |ts| && 0 <= v < |vs|
        ensures Height(vs, ts[t], vs[v]) <= 0.0
      {
        VolumeIsDepth(vs, ts, vs[v]);
        HeightsSign(vs, ts, v, |ts|);
      }
    }
  }

  lemma NoVolume(vs: seq<Vec3>, ts: seq<Tri>)
    requires InRange(ts, |vs|) && |ts| == 0
    ensures VolumeTimesSix(vs, ts) == 0.0
  {
  }

  // ---------------------------------------------------------------- turning the mesh over

  lemma {:induction false} FlippedVolumeTo(vs: seq<Vec3>, ts: seq<Tri>, ts': seq<Tri>, n: nat)
    requires InRange(ts, |vs|) && InRange(ts', |vs|) && n <= |ts| == |ts'|
    requires forall t :: 0 <= t < |ts| ==> ts'[t] == ts[t].Flip()
    ensures VolumeTo(vs, ts', n) == -VolumeTo(vs, ts, n)
    decreases n
  {
    hide Moments.Triple;
    if n > 0 {
      FlippedVolumeTo(vs, ts, ts', n - 1);
      Moments.TripleSwap(vs[ts[n - 1].a], vs[ts[n - 1].b], vs[ts[n - 1].c]);
    }
  }

  lemma FlippedHeight(vs: seq<Vec3>, t: Tri, p: Vec3)
    requires t.a < |vs| && t.b < |vs| && t.c < |vs|
    ensures Height(vs, t.Flip(), p) == -Height(vs, t, p)
  {
    ConeHeight(vs, t, p);
    ConeHeight(vs, t.Flip(), p);
    Moments.TripleSwap(Sub(vs[t.a], p), Sub(vs[t.b], p), Sub(vs[t.c], p));
  }

  lemma FlippedFaces(vs: seq<Vec3>, ts: seq<Tri>, ts': seq<Tri>)
    requires InRange(ts, |vs|) && InRange(ts', |vs|) && |ts'| == |ts|
    requires forall t :: 0 <= t < |ts| ==> ts'[t] == ts[t].Flip()
    ensures Outward(vs, ts') <==> Inward(vs, ts)
    ensures Inward(vs, ts') <==> Outward(vs, ts)
  {
    forall t, v | 0 <= t < |ts| && 0 <= v < |vs|
      ensures Height(vs, ts'[t], vs[v]) == -Height(vs, ts[t], vs[v])
    {
      FlippedHeight(vs, ts[t], vs[v]);
    }
    hide Height;
  }

  /** Turning over by the sign of the volume leaves every vertex behind every
      triangle exactly when the triangles all look one way. */
  lemma TurnedOutward(vs: seq<Vec3>, ts: seq<Tri>, ts': seq<Tri>)
    requires InRange(ts, |vs|) && InRange(ts', |vs|) && |ts'| == |ts| && Coherent(ts)
    requires if VolumeTimesSix(vs, ts) < 0.0 then forall t :: 0 <= t < |ts| ==> ts'[t] == ts[t].Flip() else ts' == ts
    ensures Outward(vs, ts') <==> Outward(vs, ts) || Inward(vs, ts)
  {
    VolumeSign(vs, ts);
    hide Outward, Inward, VolumeTimesSix;
    if VolumeTimesSix(vs, ts) < 0.0 {
      FlippedFaces(vs, ts, ts');
    }
  }

  /** Leaves the volume non-negative by turning all triangles over or none. */
  method OrientPositive(vs: seq<Vec3>, triangles: array<Tri>)
    requires InRange(triangles[..], |vs|)
    modifies triangles
    ensures InRange(triangles[..], |vs|)
    ensures VolumeTimesSix(vs, triangles[..]) == Abs(VolumeTimesSix(vs, old(triangles[..])))
    ensures if VolumeTimesSix(vs, old(triangles[..])) < 0.0
            then forall t :: 0 <= t < triangles.Length ==> triangles[t] == old(triangles[t]).Flip()
            else triangles[..] == old(triangles[..])
    ensures Coherent(triangles[..]) <==> Coherent(old(triangles[..]))
    ensures Coherent(triangles[..]) ==>
              (Outward(vs, triangles[..]) <==> Outward(vs, old(triangles[..])) || Inward(vs, old(triangles[..])))
  {
    hide Coherent, Outward, Inward;
    ghost var ts := triangles[..];
    var volume := 0.0;
    for t := 0 to triangles.Length
      invariant volume == VolumeTo(vs, ts, t)
    {
      assert triangles[t] == ts[t];
      volume := volume + Six(vs, triangles[t]);
    }
    if volume < 0.0 {
      for t := 0 to triangles.Length
        invariant forall i :: 0 <= i < t ==> triangles[i] == ts[i].Flip()
        invariant forall i :: t <= i < triangles.Length ==> triangles[i] == ts[i]
      {
        triangles[t] := triangles[t].Flip();
      }
      FlippedVolumeTo(vs, ts, triangles[..], |ts|);
      AllFlippedCoherent(ts, triangles[..]);
    }
    if Coherent(ts) {
      TurnedOutward(vs, ts, triangles[..]);
    }
  }
}
