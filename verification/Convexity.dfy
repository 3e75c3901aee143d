/** Closed surfaces that bound convex bodies face outward. */
module Convexity {
  import opened Linalg
  import opened Mesh
  import opened Volume
  import Moments
  import Shells

  /** All vertices lie on one side of the triangle's plane. */
  ghost predicate OneSided(vs: seq<Vec3>, t: Tri)
    requires t.a < |vs| && t.b < |vs| && t.c < |vs|
  {
    || (forall v :: 0 <= v < |vs| ==> Height(vs, t, vs[v]) <= 0.0)
    || (forall v :: 0 <= v < |vs| ==> Height(vs, t, vs[v]) >= 0.0)
  }

  /** Two triangles that share an edge without lying in one plane. */
  ghost predicate Bent(vs: seq<Vec3>, ts: seq<Tri>, x: nat, y: nat)
    requires InRange(ts, |vs|)
  {
    && Shells.Shares(ts, x, y)
    && exists v :: 0 <= v < |vs| && Shells.HasCorner(ts[y], v) && Height(vs, ts[x], vs[v]) != 0.0
  }

  /** A walk over edges at which the surface bends. */
  ghost predicate BentWalk(vs: seq<Vec3>, ts: seq<Tri>, path: seq<nat>)
    requires InRange(ts, |vs|)
  {
    && |path| > 0
    && (forall k :: 0 <= k < |path| ==> path[k] < |ts|)
    && forall k :: 0 <= k < |path| - 1 ==> Bent(vs, ts, path[k], path[k + 1])
  }

  /** Such a walk leads from the first triangle to this one. */
  ghost predicate Linked(vs: seq<Vec3>, ts: seq<Tri>, t: nat)
    requires InRange(ts, |vs|)
  {
    exists path :: BentWalk(vs, ts, path) && path[0] == 0 && path[|path| - 1] == t
  }

  /** Every facet's plane has the surface on one side, and its facets are
      connected over edges that are not flat. */
  ghost predicate Convex(vs: seq<Vec3>, ts: seq<Tri>)
    requires InRange(ts, |vs|)
  {
    && (forall t :: 0 <= t < |ts| ==> OneSided(vs, ts[t]))
    && forall t :: 0 <= t < |ts| ==> Linked(vs, ts, t)
  }

  // ---------------------------------------------------------------- neighbours look the same way

  /** The triangle is u, w and k in this cyclic order. */
  ghost predicate Runs(t: Tri, u: nat, w: nat, k: nat) {
    t == Tri(u, w, k) || t == Tri(k, u, w) || t == Tri(w, k, u)
  }

  lemma RunsHeight(vs: seq<Vec3>, t: Tri, u: nat, w: nat, k: nat, p: Vec3)
    requires Runs(t, u, w, k) && t.a < |vs| && t.b < |vs| && t.c < |vs|
    ensures Height(vs, t, p) == Height(vs, Tri(u, w, k), p)
  {
    ConeHeight(vs, t, p);
    ConeHeight(vs, Tri(u, w, k), p);
    Moments.TripleSwap(Sub(vs[u], p), Sub(vs[w], p), Sub(vs[k], p));
    Moments.TripleSwap(Sub(vs[k], p), Sub(vs[u], p), Sub(vs[w], p));
    Moments.TripleSwap(Sub(vs[w], p), Sub(vs[k], p), Sub(vs[u], p));
    Moments.TripleSwap(Sub(vs[u], p), Sub(vs[k], p), Sub(vs[w], p));
    Moments.TripleSwap(Sub(vs[w], p), Sub(vs[u], p), Sub(vs[k], p));
    hide Height, Moments.Triple, Sub;
  }

  lemma CornerHeight(vs: seq<Vec3>, t: Tri)
    requires t.a < |vs| && t.b < |vs| && t.c < |vs|
    ensures Height(vs, t, vs[t.a]) == 0.0
  {
    var d := Sub(vs[t.a], vs[t.a]);
    assert d == Vec3(0.0, 0.0, 0.0);
    hide Cross;
  }

  lemma OwnHeight(vs: seq<Vec3>, t: Tri, v: nat)
    requires t.a < |vs| && t.b < |vs| && t.c < |vs| && Shells.HasCorner(t, v)
    ensures Height(vs, t, vs[v]) == 0.0
  {
    hide Height;
    CornerHeight(vs, t);
    CornerHeight(vs, Tri(t.b, t.c, t.a));
    CornerHeight(vs, Tri(t.c, t.a, t.b));
    RunsHeight(vs, t, t.b, t.c, t.a, vs[t.b]);
    RunsHeight(vs, t, t.c, t.a, t.b, vs[t.c]);
  }

  /** Across an edge run both ways, each sees the other's far corner alike. */
  lemma AcrossEdge(vs: seq<Vec3>, u: nat, w: nat, k: nat, l: nat)
    requires u < |vs| && w < |vs| && k < |vs| && l < |vs|
    ensures Height(vs, Tri(u, w, k), vs[l]) == Height(vs, Tri(w, u, l), vs[k])
  {
    var (d, a, b, c) := (vs[u], Sub(vs[w], vs[u]), Sub(vs[k], vs[u]), Sub(vs[l], vs[u]));
    RunsHeight(vs, Tri(w, u, l), u, l, w, vs[k]);
    assert Height(vs, Tri(u, w, k), vs[l]) == Dot3(Cross(a, b), c);
    assert Height(vs, Tri(u, l, w), vs[k]) == Dot3(Cross(c, a), b);
    DotCommutes(Cross(a, b), c);
    DotCommutes(Cross(c, a), b);
    TripleExpanded(c, a, b);
    TripleExpanded(b, c, a);
    hide Dot3, Cross;
  }

  lemma EdgeRuns(t: Tri, e: Edge) returns (u: nat, w: nat, k: nat)
    requires Shells.HasEdge(t, e)
    ensures EdgeOf(u, w) == e && Runs(t, u, w, k) && TriUses(t, u, w) > 0
  {
    if EdgeOf(t.a, t.b) == e {
      u, w, k := t.a, t.b, t.c;
    } else if EdgeOf(t.b, t.c) == e {
      u, w, k := t.b, t.c, t.a;
    } else {
      u, w, k := t.c, t.a, t.b;
    }
  }

  lemma {:induction false} UsesAtLeast(ts: seq<Tri>, u: nat, w: nat, x: nat, y: nat, n: nat)
    requires x < n && y < n && x != y && n <= |ts|
    ensures UsesTo(ts, u, w, n) >= TriUses(ts[x], u, w) + TriUses(ts[y], u, w)
    decreases n
  {
    hide TriUses;
    if x == n - 1 {
      UsesAtLeastOne(ts, u, w, y, n - 1);
    } else if y == n - 1 {
      UsesAtLeastOne(ts, u, w, x, n - 1);
    } else {
      UsesAtLeast(ts, u, w, x, y, n - 1);
    }
  }

  lemma {:induction false} UsesAtLeastOne(ts: seq<Tri>, u: nat, w: nat, x: nat, n: nat)
    requires x < n <= |ts|
    ensures UsesTo(ts, u, w, n) >= TriUses(ts[x], u, w)
    decreases n
  {
    hide TriUses;
    if x < n - 1 {
      UsesAtLeastOne(ts, u, w, x, n - 1);
    }
  }

  /** A coherent mesh runs along a shared edge both ways. */
  lemma SharedEdge(ts: seq<Tri>, x: nat, y: nat, e: Edge) returns (u: nat, w: nat, k: nat, l: nat)
    requires Coherent(ts) && x < |ts| && y < |ts| && x != y && Shells.HasEdge(ts[x], e) && Shells.HasEdge(ts[y], e)
    ensures Runs(ts[x], u, w, k) && (u == w || Runs(ts[y], w, u, l))
  {
    hide Coherent, UsesTo, Runs, TriUses, Shells.HasEdge;
    u, w, k := EdgeRuns(ts[x], e);
    var u', w', l' := EdgeRuns(ts[y], e);
    l := l';
    if u != w && u' == u {
      UsesAtLeast(ts, u, w, x, y, |ts|);
      UsedOnce(ts, u, w);
      assert false;
    }
  }

  lemma UsedOnce(ts: seq<Tri>, u: nat, w: nat)
    requires Coherent(ts) && u != w
    ensures Uses(ts, u, w) <= 1
  {
  }

  /** Neighbours of a coherent mesh see each other's far corner alike. */
  lemma BentAlike(vs: seq<Vec3>, ts: seq<Tri>, x: nat, y: nat) returns (v: nat, v': nat)
    requires InRange(ts, |vs|) && Coherent(ts) && x < |ts| && Bent(vs, ts, x, y)
    ensures v < |vs| && v' < |vs| && Height(vs, ts[x], vs[v]) == Height(vs, ts[y], vs[v']) != 0.0
  {
    hide Height, Coherent, Shells.HasEdge;
    v :| 0 <= v < |vs| && Shells.HasCorner(ts[y], v) && Height(vs, ts[x], vs[v]) != 0.0;
    if x == y {
      OwnHeight(vs, ts[x], v);
    }
    var e :| Shells.HasEdge(ts[x], e) && Shells.HasEdge(ts[y], e);
    var u, w, k, l := SharedEdge(ts, x, y, e);
    v' := k;
    OwnCorners(vs, ts[x], u, w, k, v);
    RunsHeight(vs, ts[x], u, w, k, vs[v]);
    if u == w {
      FlatHeight(vs, u, k, vs[v]);
    }
    assert v == l;
    RunsHeight(vs, ts[y], w, u, l, vs[k]);
    AcrossEdge(vs, u, w, k, l);
  }

  lemma OwnCorners(vs: seq<Vec3>, t: Tri, u: nat, w: nat, k: nat, v: nat)
    requires t.a < |vs| && t.b < |vs| && t.c < |vs| && v < |vs| && Runs(t, u, w, k) && Height(vs, t, vs[v]) != 0.0
    ensures v != u && v != w && v != k
  {
    hide Height;
    if v == u || v == w || v == k {
      OwnHeight(vs, t, v);
    }
  }

  lemma FlatHeight(vs: seq<Vec3>, u: nat, k: nat, p: Vec3)
    requires u < |vs| && k < |vs|
    ensures Height(vs, Tri(u, u, k), p) == 0.0
  {
    var d := Sub(vs[u], vs[u]);
    assert d == Vec3(0.0, 0.0, 0.0);
    assert Cross(d, Sub(vs[k], vs[u])) == Vec3(0.0, 0.0, 0.0);
    hide Cross, Sub;
  }

  // ---------------------------------------------------------------- all of them look the same way

  /** No vertex is in front of t, as for t0, or none behind. */
  ghost predicate Alike(vs: seq<Vec3>, t0: Tri, t: Tri)
    requires t0.a < |vs| && t0.b < |vs| && t0.c < |vs| && t.a < |vs| && t.b < |vs| && t.c < |vs|
  {
    || (forall v :: 0 <= v < |vs| ==> Height(vs, t0, vs[v]) <= 0.0 && Height(vs, t, vs[v]) <= 0.0)
    || (forall v :: 0 <= v < |vs| ==> Height(vs, t0, vs[v]) >= 0.0 && Height(vs, t, vs[v]) >= 0.0)
  }

  lemma {:induction false} WalkAlike(vs: seq<Vec3>, ts: seq<Tri>, path: seq<nat>, k: nat)
    requires InRange(ts, |vs|) && Coherent(ts) && BentWalk(vs, ts, path) && k < |path|
    requires forall t :: 0 <= t < |ts| ==> OneSided(vs, ts[t])
    ensures Alike(vs, ts[path[0]], ts[path[k]])
    decreases k
  {
    hide Height, Coherent, Bent;
    if k > 0 {
      WalkAlike(vs, ts, path, k - 1);
      assert Bent(vs, ts, path[k - 1], path[k - 1 + 1]);
      var v, v' := BentAlike(vs, ts, path[k - 1], path[k]);
      assert OneSided(vs, ts[path[k]]);
    } else {
      assert OneSided(vs, ts[path[0]]);
    }
  }

  /** The triangle does not contain the whole surface in its plane. */
  lemma FirstIsBent(vs: seq<Vec3>, ts: seq<Tri>) returns (v: nat)
    requires InRange(ts, |vs|) && Convex(vs, ts) && |ts| > 1
    ensures v < |vs| && Height(vs, ts[0], vs[v]) != 0.0
  {
    hide Height, OneSided;
    assert Linked(vs, ts, 1);
    var path :| BentWalk(vs, ts, path) && path[0] == 0 && path[|path| - 1] == 1;
    assert Bent(vs, ts, path[0], path[0 + 1]);
    v :| 0 <= v < |vs| && Shells.HasCorner(ts[path[1]], v) && Height(vs, ts[0], vs[v]) != 0.0;
  }

  /** The facets of a convex surface all look one way. */
  lemma ConvexLooksOneWay(vs: seq<Vec3>, ts: seq<Tri>)
    requires InRange(ts, |vs|) && Coherent(ts) && Convex(vs, ts)
    ensures Outward(vs, ts) || Inward(vs, ts)
  {
    hide Height, Coherent, Linked;
    if |ts| == 1 {
      assert OneSided(vs, ts[0]);
    } else if |ts| > 1 {
      var v := FirstIsBent(vs, ts);
      forall t | 0 <= t < |ts|
        ensures Alike(vs, ts[0], ts[t])
      {
        LinkedAlike(vs, ts, t);
      }
    }
  }

  lemma LinkedAlike(vs: seq<Vec3>, ts: seq<Tri>, t: nat)
    requires InRange(ts, |vs|) && Coherent(ts) && t < |ts| && Linked(vs, ts, t)
    requires forall t :: 0 <= t < |ts| ==> OneSided(vs, ts[t])
    ensures Alike(vs, ts[0], ts[t])
  {
    hide Coherent, OneSided, Alike;
    var path :| BentWalk(vs, ts, path) && path[0] == 0 && path[|path| - 1] == t;
    WalkAlike(vs, ts, path, |path| - 1);
  }

  /** Turned so that its volume is not negative, a convex surface faces outward. */
  lemma ConvexFacesOutward(vs: seq<Vec3>, ts: seq<Tri>)
    requires InRange(ts, |vs|) && Coherent(ts) && Convex(vs, ts) && VolumeTimesSix(vs, ts) >= 0.0
    ensures Outward(vs, ts)
  {
    hide Coherent, Convex, Outward, Inward, VolumeTimesSix;
    ConvexLooksOneWay(vs, ts);
    VolumeSign(vs, ts);
  }

  // ---------------------------------------------------------------- the tetrahedron

  /** The boundary of a tetrahedron, each facet opposite to one vertex. */
  ghost predicate TetrahedronBoundary(ts: seq<Tri>) {
    ts == [Tri(0, 2, 1), Tri(0, 1, 3), Tri(1, 2, 3), Tri(0, 3, 2)]
  }

  /** The vertex that is not a corner of the facet. */
  function Opposite(t: nat): nat {
    if t == 0 then 3 else if t == 1 then 2 else if t == 2 then 0 else 1
  }

  lemma {:induction false} BoundaryUses(ts: seq<Tri>, u: nat, v: nat)
    requires |ts| == 4
    ensures Uses(ts, u, v) == TriUses(ts[0], u, v) + TriUses(ts[1], u, v) + TriUses(ts[2], u, v) + TriUses(ts[3], u, v)
  {
    hide TriUses;
    assert UsesTo(ts, u, v, 2) == TriUses(ts[0], u, v) + TriUses(ts[1], u, v) by {
      assert UsesTo(ts, u, v, 1) == TriUses(ts[0], u, v);
    }
  }

  lemma BoundaryCoherent(ts: seq<Tri>)
    requires TetrahedronBoundary(ts)
    ensures Coherent(ts)
  {
    forall u: nat, v: nat | u != v
      ensures Uses(ts, u, v) == Uses(ts, v, u) <= 1
    {
      BoundaryUses(ts, u, v);
      BoundaryUses(ts, v, u);
    }
  }

  function TetrahedronDeterminant(vs: seq<Vec3>): real
    requires |vs| == 4
  {
    Dot3(Sub(vs[1], vs[0]), Cross(Sub(vs[2], vs[0]), Sub(vs[3], vs[0])))
  }

  lemma TripleTurns(a: Vec3, b: Vec3, c: Vec3)
    ensures Dot3(Cross(b, a), c) == Dot3(Cross(a, c), b) == Dot3(Cross(c, b), a) == -Dot3(a, Cross(b, c))
  {
    DotCommutes(Cross(b, a), c);
    DotCommutes(Cross(a, c), b);
    DotCommutes(Cross(c, b), a);
    TripleExpanded(c, b, a);
    TripleExpanded(b, a, c);
    TripleExpanded(a, c, b);
    TripleExpanded(a, b, c);
    hide Dot3, Cross;
  }

  lemma OppositeHeight(vs: seq<Vec3>, ts: seq<Tri>, t: nat)
    requires |vs| == 4 && TetrahedronBoundary(ts) && t < 4
    ensures Height(vs, ts[t], vs[Opposite(t)]) == -TetrahedronDeterminant(vs)
  {
    TripleTurns(Sub(vs[1], vs[0]), Sub(vs[2], vs[0]), Sub(vs[3], vs[0]));
    AcrossEdge(vs, 1, 2, 3, 0);
    RunsHeight(vs, Tri(2, 1, 0), 0, 2, 1, vs[3]);
    hide Dot3, Cross, Sub;
  }

  lemma FacetHeight(vs: seq<Vec3>, ts: seq<Tri>, t: nat, v: nat)
    requires |vs| == 4 && TetrahedronBoundary(ts) && t < 4 && v < 4
    ensures Height(vs, ts[t], vs[v]) == if v == Opposite(t) then -TetrahedronDeterminant(vs) else 0.0
  {
    hide Height, TetrahedronDeterminant;
    OppositeHeight(vs, ts, t);
    if v != Opposite(t) {
      OwnHeight(vs, ts[t], v);
    }
  }

  lemma FacetsBent(vs: seq<Vec3>, ts: seq<Tri>, t: nat)
    requires |vs| == 4 && TetrahedronBoundary(ts) && InRange(ts, |vs|) && 0 < t < 4 && TetrahedronDeterminant(vs) != 0.0
    ensures Linked(vs, ts, t)
  {
    hide Height, TetrahedronDeterminant;
    FacetHeight(vs, ts, 0, 3);
    assert Shells.HasCorner(ts[t], 3);
    var e := if t == 1 then Edge(0, 1) else if t == 2 then Edge(1, 2) else Edge(0, 2);
    assert Shells.HasEdge(ts[0], e) && Shells.HasEdge(ts[t], e);
    assert Bent(vs, ts, 0, t);
    assert BentWalk(vs, ts, [0, t]);
  }

  /** The boundary of every tetrahedron that is not flat is convex, and its
      six-fold volume is the determinant of its edges. */
  lemma TetrahedronConvex(vs: seq<Vec3>, ts: seq<Tri>)
    requires |vs| == 4 && TetrahedronBoundary(ts) && TetrahedronDeterminant(vs) != 0.0
    ensures InRange(ts, |vs|) && Coherent(ts) && Convex(vs, ts)
    ensures VolumeTimesSix(vs, ts) == TetrahedronDeterminant(vs)
  {
    hide Height, TetrahedronDeterminant, Coherent, VolumeTimesSix, Linked;
    assert |ts| == 4 && InRange(ts, |vs|);
    BoundaryCoherent(ts);
    forall t | 0 <= t < 4
      ensures OneSided(vs, ts[t]) && Linked(vs, ts, t)
    {
      BoundaryFacet(vs, ts, t);
    }
    BoundaryVolume(vs, ts);
  }

  lemma BoundaryFacet(vs: seq<Vec3>, ts: seq<Tri>, t: nat)
    requires |vs| == 4 && TetrahedronBoundary(ts) && InRange(ts, |vs|) && t < 4 && TetrahedronDeterminant(vs) != 0.0
    ensures OneSided(vs, ts[t]) && Linked(vs, ts, t)
  {
    hide Height, TetrahedronDeterminant;
    forall v | 0 <= v < 4
      ensures Height(vs, ts[t], vs[v]) == if v == Opposite(t) then -TetrahedronDeterminant(vs) else 0.0
    {
      FacetHeight(vs, ts, t, v);
    }
    if t == 0 {
      assert BentWalk(vs, ts, [0]);
    } else {
      FacetsBent(vs, ts, t);
    }
  }

  lemma BoundaryVolume(vs: seq<Vec3>, ts: seq<Tri>)
    requires |vs| == 4 && TetrahedronBoundary(ts) && InRange(ts, |vs|)
    ensures VolumeTimesSix(vs, ts) == TetrahedronDeterminant(vs)
  {
    hide Height, TetrahedronDeterminant, Coherent, VolumeTimesSix;
    BoundaryCoherent(ts);
    var p := vs[0];
    VolumeIsDepth(vs, ts, p);
    forall t | 0 <= t < 4
      ensures Height(vs, ts[t], p) == if t == 2 then -TetrahedronDeterminant(vs) else 0.0
    {
      FacetHeight(vs, ts, t, 0);
    }
    assert |ts| == 4;
    hide TetrahedronBoundary;
    assert HeightsTo(vs, ts, p, 2) == 0.0 by {
      assert HeightsTo(vs, ts, p, 1) == 0.0;
    }
  }

  // ---------------------------------------------------------------- why the edges must bend

  /** A tetrahedron, and three points of its lowest facet. */
  ghost predicate PillowVertices(vs: seq<Vec3>) {
    vs == [Vec3(0.0, 0.0, 0.0), Vec3(4.0, 0.0, 0.0), Vec3(0.0, 4.0, 0.0), Vec3(0.0, 0.0, 4.0),
           Vec3(1.0, 1.0, 0.0), Vec3(2.0, 1.0, 0.0), Vec3(1.0, 2.0, 0.0)]
  }

  /** The tetrahedron's facets, and the two sides of a triangle in the lowest. */
  ghost predicate PillowTriangles(ts: seq<Tri>) {
    ts == [Tri(0, 2, 1), Tri(0, 1, 3), Tri(1, 2, 3), Tri(0, 3, 2), Tri(4, 5, 6), Tri(4, 6, 5)]
  }

  lemma {:induction false} PillowUses(ts: seq<Tri>, u: nat, v: nat)
    requires |ts| == 6
    ensures Uses(ts, u, v) == TriUses(ts[0], u, v) + TriUses(ts[1], u, v) + TriUses(ts[2], u, v)
                            + TriUses(ts[3], u, v) + TriUses(ts[4], u, v) + TriUses(ts[5], u, v)
  {
    hide TriUses;
    assert UsesTo(ts, u, v, 3) == TriUses(ts[0], u, v) + TriUses(ts[1], u, v) + TriUses(ts[2], u, v) by {
      assert UsesTo(ts, u, v, 1) == TriUses(ts[0], u, v);
    }
    assert UsesTo(ts, u, v, 5) == UsesTo(ts, u, v, 3) + TriUses(ts[3], u, v) + TriUses(ts[4], u, v);
  }

  lemma PillowCoherent(ts: seq<Tri>)
    requires PillowTriangles(ts)
    ensures Coherent(ts)
  {
    forall u: nat, v: nat | u != v
      ensures Uses(ts, u, v) == Uses(ts, v, u) <= 1
    {
      PillowUses(ts, u, v);
      PillowUses(ts, v, u);
    }
  }

  /** Along each normal, the height over each triangle. */
  lemma PillowHeight(vs: seq<Vec3>, ts: seq<Tri>, t: nat, p: Vec3)
    requires PillowVertices(vs) && PillowTriangles(ts) && t < 6
    ensures Height(vs, ts[t], p) == if t == 0 then -16.0 * p.z else if t == 1 then -16.0 * p.y
                                    else if t == 2 then 16.0 * (p.x + p.y + p.z - 4.0) else if t == 3 then -16.0 * p.x
                                    else if t == 4 then p.z else -p.z
  {
    hide Dot3, Cross, Sub;
    var (a, b, c) := (vs[ts[t].a], vs[ts[t].b], vs[ts[t].c]);
    if t == 0 {
      HeightBy(a, b, c, p, 0.0, 4.0, 0.0, 4.0, 0.0, 0.0);
    } else if t == 1 {
      HeightBy(a, b, c, p, 4.0, 0.0, 0.0, 0.0, 0.0, 4.0);
    } else if t == 2 {
      HeightBy(a, b, c, p, -4.0, 4.0, 0.0, -4.0, 0.0, 4.0);
    } else if t == 3 {
      HeightBy(a, b, c, p, 0.0, 0.0, 4.0, 0.0, 4.0, 0.0);
    } else if t == 4 {
      HeightBy(a, b, c, p, 1.0, 0.0, 0.0, 0.0, 1.0, 0.0);
    } else {
      HeightBy(a, b, c, p, 0.0, 1.0, 0.0, 1.0, 0.0, 0.0);
    }
  }

  lemma HeightBy(a: Vec3, b: Vec3, c: Vec3, p: Vec3, u: real, v: real, w: real, x: real, y: real, z: real)
    requires b.x - a.x == u && b.y - a.y == v && b.z - a.z == w && c.x - a.x == x && c.y - a.y == y && c.z - a.z == z
    ensures Dot3(Cross(Sub(b, a), Sub(c, a)), Sub(p, a))
         == (v * z - w * y) * (p.x - a.x) + (w * x - u * z) * (p.y - a.y) + (u * y - v * x) * (p.z - a.z)
  {
  }

  /** The doubled triangle has everything in front of its upper side, and all
      other triangles have everything behind them. */
  lemma PillowSide(vs: seq<Vec3>, ts: seq<Tri>, t: nat, v: nat)
    requires PillowVertices(vs) && PillowTriangles(ts) && t < 6 && v < 7
    ensures if t == 4 then Height(vs, ts[t], vs[v]) >= 0.0 else Height(vs, ts[t], vs[v]) <= 0.0
  {
    hide Height;
    PillowHeight(vs, ts, t, vs[v]);
    assert 0.0 <= vs[v].x && 0.0 <= vs[v].y && 0.0 <= vs[v].z && vs[v].x + vs[v].y + vs[v].z <= 4.0;
  }

  /** A closed surface of positive volume with everything on one side of each
      facet's plane, though not on the inner side of all. */
  ghost predicate LooksBothWays(vs: seq<Vec3>, ts: seq<Tri>) {
    && InRange(ts, |vs|) && Coherent(ts) && VolumeTimesSix(vs, ts) > 0.0
    && (forall t :: 0 <= t < |ts| ==> OneSided(vs, ts[t]))
    && !Outward(vs, ts) && !Inward(vs, ts)
  }

  /** One side of each facet's plane is not enough: the doubled triangle looks
      both ways, whichever way the rest is turned. */
  lemma PillowLooksBothWays(vs: seq<Vec3>, ts: seq<Tri>)
    requires PillowVertices(vs) && PillowTriangles(ts)
    ensures LooksBothWays(vs, ts)
  {
    hide Height, Coherent, VolumeTimesSix, OneSided, Outward, Inward;
    PillowSizes(vs, ts);
    PillowCoherent(ts);
    PillowTop(vs, ts);
    PillowVolume(vs, ts);
    hide PillowVertices, PillowTriangles;
    forall t | 0 <= t < |ts|
      ensures OneSided(vs, ts[t])
    {
      PillowOneSided(vs, ts, t);
    }
  }

  lemma PillowSizes(vs: seq<Vec3>, ts: seq<Tri>)
    requires PillowVertices(vs) && PillowTriangles(ts)
    ensures |vs| == 7 && |ts| == 6 && InRange(ts, |vs|)
  {
  }

  lemma PillowTop(vs: seq<Vec3>, ts: seq<Tri>)
    requires PillowVertices(vs) && PillowTriangles(ts) && InRange(ts, |vs|)
    ensures !Outward(vs, ts) && !Inward(vs, ts)
  {
    hide Height;
    PillowHeight(vs, ts, 0, vs[3]);
    PillowHeight(vs, ts, 4, vs[3]);
    assert vs[3].z == 4.0;
  }

  lemma PillowOneSided(vs: seq<Vec3>, ts: seq<Tri>, t: nat)
    requires PillowVertices(vs) && PillowTriangles(ts) && InRange(ts, |vs|) && t < |ts|
    ensures OneSided(vs, ts[t])
  {
    hide Height;
    PillowSizes(vs, ts);
    hide PillowVertices, PillowTriangles;
    forall v | 0 <= v < |vs|
      ensures if t == 4 then Height(vs, ts[t], vs[v]) >= 0.0 else Height(vs, ts[t], vs[v]) <= 0.0
    {
      PillowSide(vs, ts, t, v);
    }
  }

  lemma PillowVolume(vs: seq<Vec3>, ts: seq<Tri>)
    requires PillowVertices(vs) && PillowTriangles(ts) && InRange(ts, |vs|)
    ensures VolumeTimesSix(vs, ts) > 0.0
  {
    hide Coherent, Height, VolumeTimesSix;
    PillowCoherent(ts);
    PillowSizes(vs, ts);
    var p := vs[0];
    VolumeIsDepth(vs, ts, p);
    forall t | 0 <= t < 6
      ensures Height(vs, ts[t], p) == if t == 2 then -64.0 else 0.0
    {
      PillowHeight(vs, ts, t, p);
    }
    hide PillowVertices, PillowTriangles;
    assert HeightsTo(vs, ts, p, 3) == -64.0 by {
      assert HeightsTo(vs, ts, p, 1) == 0.0;
    }
    assert HeightsTo(vs, ts, p, 5) == -64.0;
  }
}
