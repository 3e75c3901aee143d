/** Fan triangulation of face polygons with vertices welded by position. */
module Welding {
  import opened Linalg
  import opened Mesh
  import opened Volume

  /** One face: its points, and polygons of one-based signed point indices. */
  datatype Face = Face(points: seq<Vec3>, polygons: seq<seq<int>>)

  function Magnitude(i: int): nat {
    if i < 0 then -i else i
  }

  /** Every index names a point. */
  ghost predicate ValidPolygon(points: seq<Vec3>, polygon: seq<int>) {
    forall k :: 0 <= k < |polygon| ==> 1 <= Magnitude(polygon[k]) <= |points|
  }

  ghost predicate ValidFace(face: Face) {
    forall p :: 0 <= p < |face.polygons| ==> ValidPolygon(face.points, face.polygons[p])
  }

  /** The positions of a polygon's corners. */
  function Outline(points: seq<Vec3>, polygon: seq<int>): (r: seq<Vec3>)
    requires ValidPolygon(points, polygon)
    ensures |r| == |polygon|
  {
    seq(|polygon|, k requires 0 <= k < |polygon| => points[Magnitude(polygon[k]) - 1])
  }

  /** A triangle by position. */
  datatype Facet = Facet(a: Vec3, b: Vec3, c: Vec3)

  /** The fan around the first corner; nothing below three corners. */
  function Fan(outline: seq<Vec3>): (r: seq<Facet>)
    ensures |r| == if |outline| < 3 then 0 else |outline| - 2
  {
    if |outline| < 3 then []
    else seq(|outline| - 2, k requires 0 <= k < |outline| - 2 => Facet(outline[0], outline[k + 1], outline[k + 2]))
  }

  function FaceFacets(face: Face, polygons: nat): seq<Facet>
    requires ValidFace(face) && polygons <= |face.polygons|
    decreases polygons
  {
    if polygons == 0 then [] else FaceFacets(face, polygons - 1) + Fan(Outline(face.points, face.polygons[polygons - 1]))
  }

  ghost predicate ValidFaces(faces: seq<Face>) {
    forall f :: 0 <= f < |faces| ==> ValidFace(faces[f])
  }

  function Facets(faces: seq<Face>, count: nat): seq<Facet>
    requires ValidFaces(faces) && count <= |faces|
    decreases count
  {
    if count == 0 then [] else Facets(faces, count - 1) + FaceFacets(faces[count - 1], |faces[count - 1].polygons|)
  }

  /** No position is stored twice. */
  ghost predicate Distinct(vertices: seq<Vec3>) {
    forall i, j :: 0 <= i < j < |vertices| ==> vertices[i] != vertices[j]
  }

  /** The positions of the triangles' corners. */
  ghost function Positions(vertices: seq<Vec3>, ts: seq<Tri>): (r: seq<Facet>)
    requires InRange(ts, |vertices|)
    ensures |r| == |ts|
  {
    seq(|ts|, t requires 0 <= t < |ts| => Facet(vertices[ts[t].a], vertices[ts[t].b], vertices[ts[t].c]))
  }

  type Index = map<Vec3, nat>

  /** The index finds every stored vertex and nothing else. */
  ghost predicate Indexes(index: Index, vertices: seq<Vec3>) {
    && (forall p :: p in index ==> index[p] < |vertices| && vertices[index[p]] == p)
    && (forall v :: 0 <= v < |vertices| ==> vertices[v] in index && index[vertices[v]] == v)
  }

  /** Looks one outline up, storing the positions that are new. */
  method Weld(outline: seq<Vec3>, vertices0: seq<Vec3>, index0: Index) returns (corners: seq<nat>, vertices: seq<Vec3>, index: Index)
    requires Indexes(index0, vertices0)
    ensures Indexes(index, vertices) && vertices0 <= vertices
    ensures Stored(corners, vertices, outline)
  {
    corners, vertices, index := [], vertices0, index0;
    for k := 0 to |outline|
      invariant Indexes(index, vertices) && vertices0 <= vertices
      invariant |corners| == k
      invariant forall i :: 0 <= i < k ==> corners[i] < |vertices| && vertices[corners[i]] == outline[i]
    {
      var p := outline[k];
      if p !in index {
        index := index[p := |vertices|];
        vertices := vertices + [p];
      }
      corners := corners + [index[p]];
    }
  }

  /** The corners are stored under their positions. */
  ghost predicate Stored(corners: seq<nat>, vertices: seq<Vec3>, outline: seq<Vec3>) {
    && |corners| == |outline|
    && forall k :: 0 <= k < |corners| ==> corners[k] < |vertices| && vertices[corners[k]] == outline[k]
  }

  function FanOf(corners: seq<nat>): (ts: seq<Tri>)
    requires |corners| >= 3
    ensures |ts| == |corners| - 2
  {
    seq(|corners| - 2, k requires 0 <= k < |corners| - 2 => Tri(corners[0], corners[k + 1], corners[k + 2]))
  }

  lemma FanPositions(corners: seq<nat>, vertices: seq<Vec3>, outline: seq<Vec3>)
    requires Stored(corners, vertices, outline) && |corners| >= 3
    ensures InRange(FanOf(corners), |vertices|) && Positions(vertices, FanOf(corners)) == Fan(outline)
  {
    var ts := FanOf(corners);
    forall t | 0 <= t < |ts|
      ensures ts[t].a < |vertices| && ts[t].b < |vertices| && ts[t].c < |vertices|
      ensures Facet(vertices[ts[t].a], vertices[ts[t].b], vertices[ts[t].c]) == Fan(outline)[t]
    {
      assert corners[t + 1] < |vertices| && corners[t + 2] < |vertices|;
    }
  }

  /** The fan of one polygon over welded corners. */
  method FanTriangles(corners: seq<nat>, ghost vertices: seq<Vec3>, ghost outline: seq<Vec3>) returns (ts: seq<Tri>)
    requires Stored(corners, vertices, outline)
    ensures InRange(ts, |vertices|) && Positions(vertices, ts) == Fan(outline)
  {
    ts := [];
    if |corners| < 3 {
      return;
    }
    hide Stored, InRange, Positions, Fan;
    for offset := 1 to |corners| - 1
      invariant ts == FanOf(corners)[..offset - 1]
    {
      ts := ts + [Tri(corners[0], corners[offset], corners[offset + 1])];
    }
    FanPositions(corners, vertices, outline);
  }

  lemma PositionsGrow(vertices: seq<Vec3>, vertices': seq<Vec3>, ts: seq<Tri>)
    requires InRange(ts, |vertices|) && vertices <= vertices'
    ensures InRange(ts, |vertices'|) && Positions(vertices', ts) == Positions(vertices, ts)
  {
  }

  lemma PositionsAppend(vertices: seq<Vec3>, a: seq<Tri>, b: seq<Tri>)
    requires InRange(a, |vertices|) && InRange(b, |vertices|)
    ensures InRange(a + b, |vertices|) && Positions(vertices, a + b) == Positions(vertices, a) + Positions(vertices, b)
  {
  }

  /** The welded vertices and the triangles built so far. */
  datatype Welded = Welded(vertices: seq<Vec3>, index: Index, triangles: seq<Tri>)

  /** The triangles are, by position and in order, `facets`. */
  ghost predicate Holds(w: Welded, facets: seq<Facet>) {
    && Indexes(w.index, w.vertices)
    && InRange(w.triangles, |w.vertices|)
    && Positions(w.vertices, w.triangles) == facets
  }

  method TriangulatePolygon(outline: seq<Vec3>, w: Welded, ghost facets: seq<Facet>) returns (r: Welded)
    requires Holds(w, facets)
    ensures Holds(r, facets + Fan(outline))
  {
    hide Indexes, Positions, InRange, Fan;
    var corners, vertices, index := Weld(outline, w.vertices, w.index);
    var fan := FanTriangles(corners, vertices, outline);
    PositionsGrow(w.vertices, vertices, w.triangles);
    PositionsAppend(vertices, w.triangles, fan);
    r := Welded(vertices, index, w.triangles + fan);
  }

  method TriangulateFace(face: Face, w: Welded, ghost facets: seq<Facet>) returns (r: Welded)
    requires ValidFace(face) && Holds(w, facets)
    ensures Holds(r, facets + FaceFacets(face, |face.polygons|))
  {
    hide Holds, Fan;
    r := w;
    assert facets + FaceFacets(face, 0) == facets;
    for p := 0 to |face.polygons|
      invariant Holds(r, facets + FaceFacets(face, p))
    {
      assert ValidPolygon(face.points, face.polygons[p]);
      var outline := Outline(face.points, face.polygons[p]);
      r := TriangulatePolygon(outline, r, facets + FaceFacets(face, p));
      assert facets + FaceFacets(face, p) + Fan(outline) == facets + FaceFacets(face, p + 1);
    }
  }

  lemma IndexedDistinct(index: Index, vertices: seq<Vec3>)
    requires Indexes(index, vertices)
    ensures Distinct(vertices)
  {
    forall i, j | 0 <= i < j < |vertices|
      ensures vertices[i] != vertices[j]
    {
      assert index[vertices[i]] == i && index[vertices[j]] == j;
    }
  }

  /** The triangles are, by position and in order, the fans of all polygons;
      equal positions share one vertex. */
  method TriangulateFaces(faces: seq<Face>) returns (vertices: seq<Vec3>, ts: seq<Tri>)
    requires ValidFaces(faces)
    ensures Distinct(vertices) && InRange(ts, |vertices|)
    ensures Positions(vertices, ts) == Facets(faces, |faces|)
  {
    hide FaceFacets;
    var w := Welded([], map[], []);
    assert Holds(w, []);
    for f := 0 to |faces|
      invariant Holds(w, Facets(faces, f))
    {
      hide Holds;
      w := TriangulateFace(faces[f], w, Facets(faces, f));
    }
    IndexedDistinct(w.index, w.vertices);
    vertices, ts := w.vertices, w.triangles;
  }

  // ---------------------------------------------------------------- fans keep the outline

  /** How often a closed outline of vertices runs from u to v. */
  function CycleUses(corners: seq<nat>, u: nat, v: nat, n: nat): nat
    requires n <= |corners|
    decreases n
  {
    if n == 0 then 0
    else CycleUses(corners, u, v, n - 1)
         + One(corners[n - 1] == u && corners[if n == |corners| then 0 else n] == v)
  }

  /** Uses of the open chain corners[0..n]. */
  function ChainUses(corners: seq<nat>, u: nat, v: nat, n: nat): nat
    requires n < |corners|
    decreases n
  {
    if n == 0 then 0 else ChainUses(corners, u, v, n - 1) + One(corners[n - 1] == u && corners[n] == v)
  }

  lemma {:induction false} FanUsesTo(corners: seq<nat>, u: nat, v: nat, n: nat)
    requires |corners| >= 3 && 1 <= n <= |corners| - 2
    ensures (UsesTo(FanOf(corners), u, v, n) as int) - UsesTo(FanOf(corners), v, u, n)
         == (ChainUses(corners, u, v, n + 1) as int) - ChainUses(corners, v, u, n + 1)
            + One(corners[n + 1] == u && corners[0] == v) - One(corners[n + 1] == v && corners[0] == u)
    decreases n
  {
    if n > 1 {
      FanUsesTo(corners, u, v, n - 1);
    } else {
      assert UsesTo(FanOf(corners), u, v, 1) == TriUses(FanOf(corners)[0], u, v);
      assert UsesTo(FanOf(corners), v, u, 1) == TriUses(FanOf(corners)[0], v, u);
      assert ChainUses(corners, u, v, 1) == One(corners[0] == u && corners[1] == v);
      assert ChainUses(corners, v, u, 1) == One(corners[0] == v && corners[1] == u);
    }
  }

  lemma {:induction false} ChainIsCycle(corners: seq<nat>, u: nat, v: nat, n: nat)
    requires n < |corners|
    ensures CycleUses(corners, u, v, n) == ChainUses(corners, u, v, n)
    decreases n
  {
    if n > 0 {
      ChainIsCycle(corners, u, v, n - 1);
    }
  }

  /** The inner diagonals of a fan cancel: its net use of every edge is that of
      the polygon's own outline. */
  lemma FanKeepsOutline(corners: seq<nat>, u: nat, v: nat)
    requires |corners| >= 3
    ensures (Uses(FanOf(corners), u, v) as int) - Uses(FanOf(corners), v, u)
         == (CycleUses(corners, u, v, |corners|) as int) - CycleUses(corners, v, u, |corners|)
  {
    var n := |corners| - 1;
    FanUsesTo(corners, u, v, n - 1);
    ChainIsCycle(corners, u, v, n);
    ChainIsCycle(corners, v, u, n);
  }
}
