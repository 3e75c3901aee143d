/** The search for parts whose planar face a drawn shape lies on, with a
    bounding-box filter in front of the triangle test. */
module HostFilter {
  import opened Results
  import opened RealVectors
  import opened Linalg
  import opened Mesh
  import opened LoopTest
  import opened LoopReach
  import opened LoopOutline

  /** An evaluated solid with its bounds. */
  datatype Package = Package(min: Vec3, max: Vec3, vertices: seq<Vec3>, triangles: seq<Tri>)

  /** The drawing's frame in the host's coordinates. */
  datatype Placement = Placement(origin: Vec3, axes: seq<Vec3>)

  /** An occurrence: its solid and the drawing's place, where known. */
  datatype Host = Host(id: nat, definition: nat, package: Option<Package>, placement: Option<Placement>)

  /** The drawn shape: which occurrence it is, its bounds, its flattened loop
      when it has one, how deep it is pushed and the model tolerance. */
  datatype Shape = Shape(id: nat, definition: nat, bounds: Box, polygon: Option<seq<Vec2>>, distance: real, plane: real)

  datatype Found = Found(host: Host, facing: real)

  ghost predicate ValidHost(h: Host) {
    && (h.placement.Some? ==> |h.placement.value.axes| == 3)
    && (h.package.Some? ==> forall v :: 0 <= v < |h.package.value.vertices| ==> InBounds(h.package.value, h.package.value.vertices[v]))
  }

  predicate InBounds(k: Package, p: Vec3) {
    k.min.x <= p.x <= k.max.x && k.min.y <= p.y <= k.max.y && k.min.z <= p.z <= k.max.z
  }

  /** Coordinate of a point along one axis of the drawing. */
  function Coordinate(p: Vec3, origin: Vec3, axis: Vec3): real {
    Dot3(Sub(p, origin), axis)
  }

  // ---------------------------------------------------------------- the triangle test

  function Smallest(a: real, b: real, c: real): real {
    Lower(Lower(a, b), c)
  }

  function Largest(a: real, b: real, c: real): real {
    Upper(Upper(a, b), c)
  }

  /** Parallel to the drawing plane up to the approximation. */
  predicate Parallel(sqrt: real -> real, a: Vec3, b: Vec3, c: Vec3, axis: Vec3) {
    var normal := Cross(Sub(b, a), Sub(c, a));
    var length := Length(sqrt, normal);
    length >= ROUNDING && Abs(Dot3(normal, axis) / length) >= 1.0 - APPROXIMATION
  }

  predicate OnPlane(p: Vec3, at: Placement, plane: real)
    requires |at.axes| == 3
  {
    Abs(Coordinate(p, at.origin, at.axes[2])) <= plane
  }

  /** The triangle's shadow reaches more than the tolerance into the interval. */
  predicate Overlaps(a: Vec3, b: Vec3, c: Vec3, origin: Vec3, axis: Vec3, low: real, high: real, plane: real) {
    var (u, v, w) := (Coordinate(a, origin, axis), Coordinate(b, origin, axis), Coordinate(c, origin, axis));
    Smallest(u, v, w) < high - plane && Largest(u, v, w) > low + plane
  }

  predicate Accepts(sqrt: real -> real, s: Shape, at: Placement, a: Vec3, b: Vec3, c: Vec3)
    requires |at.axes| == 3
  {
    && Parallel(sqrt, a, b, c, at.axes[2])
    && OnPlane(a, at, s.plane) && OnPlane(b, at, s.plane) && OnPlane(c, at, s.plane)
    && Overlaps(a, b, c, at.origin, at.axes[0], s.bounds.low.x, s.bounds.high.x, s.plane)
    && Overlaps(a, b, c, at.origin, at.axes[1], s.bounds.low.y, s.bounds.high.y, s.plane)
  }

  /** A triangle with all its vertices present that passes the test. */
  predicate TriangleAccepted(sqrt: real -> real, s: Shape, at: Placement, k: Package, t: Tri)
    requires |at.axes| == 3
  {
    && t.a < |k.vertices| && t.b < |k.vertices| && t.c < |k.vertices|
    && Accepts(sqrt, s, at, k.vertices[t.a], k.vertices[t.b], k.vertices[t.c])
  }

  /** Which way the face looks along the drawing's normal. */
  function Facing(a: Vec3, b: Vec3, c: Vec3, axis: Vec3): real {
    if Dot3(Cross(Sub(b, a), Sub(c, a)), axis) < 0.0 then -1.0 else 1.0
  }

  /** The first accepted triangle decides. */
  function FacingFrom(sqrt: real -> real, s: Shape, at: Placement, k: Package, t: nat): Option<real>
    requires |at.axes| == 3 && t <= |k.triangles|
    decreases |k.triangles| - t
  {
    if t == |k.triangles| then None
    else if TriangleAccepted(sqrt, s, at, k, k.triangles[t]) then
      var tri := k.triangles[t];
      Some(Facing(k.vertices[tri.a], k.vertices[tri.b], k.vertices[tri.c], at.axes[2]))
    else FacingFrom(sqrt, s, at, k, t + 1)
  }

  // ---------------------------------------------------------------- what is found

  /** A corner of the triangle with a coordinate below, or above, a bound. */
  ghost predicate SomeBelow(corners: seq<Vec3>, origin: Vec3, axis: Vec3, bound: real) {
    exists i :: 0 <= i < |corners| && Dot3(Sub(corners[i], origin), axis) < bound
  }

  ghost predicate SomeAbove(corners: seq<Vec3>, origin: Vec3, axis: Vec3, bound: real) {
    exists i :: 0 <= i < |corners| && Dot3(Sub(corners[i], origin), axis) > bound
  }

  /** A triangle that is not degenerate lies on the drawing plane within the
      tolerance, looks along its normal or against it, and reaches into the
      shape's bounds by more than the tolerance. */
  ghost predicate LiesUnder(sqrt: real -> real, s: Shape, at: Placement, a: Vec3, b: Vec3, c: Vec3)
    requires |at.axes| == 3
  {
    var (normal, corners) := (Cross(Sub(b, a), Sub(c, a)), [a, b, c]);
    && Length(sqrt, normal) >= 0.000000001
    && Abs(Dot3(normal, at.axes[2])) >= (1.0 - APPROXIMATION) * Length(sqrt, normal)
    && (forall i :: 0 <= i < 3 ==> -s.plane <= Dot3(Sub(corners[i], at.origin), at.axes[2]) <= s.plane)
    && SomeBelow(corners, at.origin, at.axes[0], s.bounds.high.x - s.plane)
    && SomeAbove(corners, at.origin, at.axes[0], s.bounds.low.x + s.plane)
    && SomeBelow(corners, at.origin, at.axes[1], s.bounds.high.y - s.plane)
    && SomeAbove(corners, at.origin, at.axes[1], s.bounds.low.y + s.plane)
  }

  ghost predicate TriangleUnder(sqrt: real -> real, s: Shape, at: Placement, k: Package, t: nat)
    requires |at.axes| == 3 && t < |k.triangles|
  {
    var tri := k.triangles[t];
    && tri.a < |k.vertices| && tri.b < |k.vertices| && tri.c < |k.vertices|
    && LiesUnder(sqrt, s, at, k.vertices[tri.a], k.vertices[tri.b], k.vertices[tri.c])
  }

  /** The first triangle under the shape looks along the drawing's normal when
      `facing` is 1 and against it when it is -1. */
  ghost predicate Looks(sqrt: real -> real, s: Shape, at: Placement, k: Package, t: nat, facing: real)
    requires |at.axes| == 3 && t < |k.triangles|
  {
    && TriangleUnder(sqrt, s, at, k, t)
    && (forall u :: 0 <= u < t ==> !TriangleUnder(sqrt, s, at, k, u))
    && (facing == 1.0 || facing == -1.0)
    && var tri := k.triangles[t];
       var (a, b, c) := (k.vertices[tri.a], k.vertices[tri.b], k.vertices[tri.c]);
       facing * Dot3(Cross(Sub(b, a), Sub(c, a)), at.axes[2]) > 0.0
  }

  lemma ParallelMeans(x: real, length: real, bound: real)
    requires length > 0.0
    ensures Abs(x / length) >= bound <==> Abs(x) >= bound * length
  {
    var r := x / length;
    DivideBack(length, x);
    ScaledOrder(length, Abs(r), bound);
    assert Abs(x) == length * Abs(r) by {
      if r >= 0.0 {
        ProductNonNegative(length, r);
      } else {
        ProductNonNegative(length, -r);
      }
    }
  }

  lemma ScaledOrder(d: real, x: real, y: real)
    requires d > 0.0
    ensures d * x >= y * d <==> x >= y
  {
    if x >= y {
      ProductNonNegative(d, x - y);
    } else {
      SameSigns(d, y - x, d * (y - x));
    }
  }

  lemma OverlapsMeans(a: Vec3, b: Vec3, c: Vec3, origin: Vec3, axis: Vec3, low: real, high: real, plane: real)
    ensures Overlaps(a, b, c, origin, axis, low, high, plane) <==>
            SomeBelow([a, b, c], origin, axis, high - plane) && SomeAbove([a, b, c], origin, axis, low + plane)
  {
    hide Dot3, Sub;
    var corners := [a, b, c];
    assert corners[0] == a && corners[1] == b && corners[2] == c;
    forall i | 0 <= i < 3
      ensures Smallest(Coordinate(a, origin, axis), Coordinate(b, origin, axis), Coordinate(c, origin, axis)) <= Dot3(Sub(corners[i], origin), axis)
      ensures Largest(Coordinate(a, origin, axis), Coordinate(b, origin, axis), Coordinate(c, origin, axis)) >= Dot3(Sub(corners[i], origin), axis)
    {
    }
  }

  lemma AcceptsMeans(sqrt: real -> real, s: Shape, at: Placement, a: Vec3, b: Vec3, c: Vec3)
    requires |at.axes| == 3
    ensures Accepts(sqrt, s, at, a, b, c) <==> LiesUnder(sqrt, s, at, a, b, c)
    ensures Accepts(sqrt, s, at, a, b, c) ==>
              var facing := Facing(a, b, c, at.axes[2]);
              (facing == 1.0 || facing == -1.0) && facing * Dot3(Cross(Sub(b, a), Sub(c, a)), at.axes[2]) > 0.0
  {
    OverlapsMeans(a, b, c, at.origin, at.axes[0], s.bounds.low.x, s.bounds.high.x, s.plane);
    OverlapsMeans(a, b, c, at.origin, at.axes[1], s.bounds.low.y, s.bounds.high.y, s.plane);
    hide Overlaps, SomeBelow, SomeAbove, Dot3, Cross, Length, Sub;
    var normal := Cross(Sub(b, a), Sub(c, a));
    var length := Length(sqrt, normal);
    assert [a, b, c][0] == a && [a, b, c][1] == b && [a, b, c][2] == c;
    if length >= ROUNDING {
      ParallelMeans(Dot3(normal, at.axes[2]), length, 1.0 - APPROXIMATION);
      SameSigns(1.0 - APPROXIMATION, length, (1.0 - APPROXIMATION) * length);
    }
  }

  lemma {:induction false} FacingFound(sqrt: real -> real, s: Shape, at: Placement, k: Package, t: nat)
    requires |at.axes| == 3 && t <= |k.triangles| && forall u :: 0 <= u < t ==> !TriangleUnder(sqrt, s, at, k, u)
    ensures FacingFrom(sqrt, s, at, k, t).Some? <==> exists u :: 0 <= u < |k.triangles| && TriangleUnder(sqrt, s, at, k, u)
    ensures FacingFrom(sqrt, s, at, k, t).Some? ==>
              exists u :: 0 <= u < |k.triangles| && Looks(sqrt, s, at, k, u, FacingFrom(sqrt, s, at, k, t).value)
    decreases |k.triangles| - t
  {
    hide Accepts, LiesUnder, Facing, Dot3, Cross, Sub;
    if t < |k.triangles| {
      var tri := k.triangles[t];
      if tri.a < |k.vertices| && tri.b < |k.vertices| && tri.c < |k.vertices| {
        AcceptsMeans(sqrt, s, at, k.vertices[tri.a], k.vertices[tri.b], k.vertices[tri.c]);
      }
      assert TriangleAccepted(sqrt, s, at, k, tri) <==> TriangleUnder(sqrt, s, at, k, t);
      if TriangleAccepted(sqrt, s, at, k, tri) {
        assert Looks(sqrt, s, at, k, t, FacingFrom(sqrt, s, at, k, t).value);
      } else {
        FacingFound(sqrt, s, at, k, t + 1);
      }
    }
  }

  // ---------------------------------------------------------------- milled away

  /** The vertex is inside the prism the shape would mill. */
  ghost predicate InPrism(hypot: (real, real) -> real, s: Shape, at: Placement, polygon: seq<Vec2>, p: Vec3)
    requires |at.axes| == 3
  {
    var along := Coordinate(p, at.origin, at.axes[2]);
    && Lower(s.distance, 0.0) - s.plane <= along <= Upper(s.distance, 0.0) + s.plane
    && Within(hypot, polygon, Vec2(Coordinate(p, at.origin, at.axes[0]), Coordinate(p, at.origin, at.axes[1])), s.plane)
  }

  /** Pushing the shape through would remove the whole part. */
  ghost predicate MilledAway(hypot: (real, real) -> real, s: Shape, at: Placement, vertices: seq<Vec3>)
    requires |at.axes| == 3
  {
    s.polygon.Some? && forall v :: 0 <= v < |vertices| ==> InPrism(hypot, s, at, s.polygon.value, vertices[v])
  }

  predicate NearDepth(along: real, depth: real, plane: real) {
    depth - plane <= along <= depth + plane
  }

  /** Pushed anywhere up to its distance, the shape reaches the point within the
      tolerance and has it within its outline. */
  ghost predicate Reaches(hypot: (real, real) -> real, s: Shape, at: Placement, polygon: seq<Vec2>, p: Vec3)
    requires |at.axes| == 3
  {
    var d := Sub(p, at.origin);
    && (exists depth :: (0.0 <= depth <= s.distance || s.distance <= depth <= 0.0) && NearDepth(Dot3(d, at.axes[2]), depth, s.plane))
    && Within(hypot, polygon, Vec2(Dot3(d, at.axes[0]), Dot3(d, at.axes[1])), s.plane)
  }

  lemma PrismMeans(hypot: (real, real) -> real, s: Shape, at: Placement, polygon: seq<Vec2>, p: Vec3)
    requires |at.axes| == 3 && s.plane >= 0.0
    ensures InPrism(hypot, s, at, polygon, p) <==> Reaches(hypot, s, at, polygon, p)
  {
    hide Within, Dot3, Sub;
    var along := Dot3(Sub(p, at.origin), at.axes[2]);
    var depth := Upper(Lower(s.distance, 0.0), Lower(along, Upper(s.distance, 0.0)));
    assert 0.0 <= depth <= s.distance || s.distance <= depth <= 0.0;
    if Lower(s.distance, 0.0) - s.plane <= along <= Upper(s.distance, 0.0) + s.plane {
      assert NearDepth(along, depth, s.plane);
    }
  }

  method IsMilledAway(hypot: (real, real) -> real, s: Shape, at: Placement, vertices: seq<Vec3>) returns (r: bool)
    requires |at.axes| == 3 && (s.polygon.Some? ==> |s.polygon.value| > 0)
    ensures r <==> MilledAway(hypot, s, at, vertices)
  {
    if s.polygon.None? {
      return false;
    }
    for v := 0 to |vertices|
      invariant forall w :: 0 <= w < v ==> InPrism(hypot, s, at, s.polygon.value, vertices[w])
    {
      hide Within;
      var p := vertices[v];
      var along := Coordinate(p, at.origin, at.axes[2]);
      if along < Lower(s.distance, 0.0) - s.plane || along > Upper(s.distance, 0.0) + s.plane {
        return false;
      }
      var uv := Vec2(Coordinate(p, at.origin, at.axes[0]), Coordinate(p, at.origin, at.axes[1]));
      var within := WithinLoop(hypot, s.polygon.value, uv, s.plane);
      if !within {
        return false;
      }
    }
    r := true;
  }

  // ---------------------------------------------------------------- the filter

  predicate Bit(index: nat, axis: nat)
    requires axis < 3
  {
    (if axis == 0 then index % 2 else if axis == 1 then index / 2 % 2 else index / 4 % 2) == 1
  }

  /** The index-th corner of the bounds. */
  function CornerOf(k: Package, index: nat): Vec3 {
    Vec3(if Bit(index, 0) then k.max.x else k.min.x, if Bit(index, 1) then k.max.y else k.min.y, if Bit(index, 2) then k.max.z else k.min.z)
  }

  /** Least coordinate of the first n corners. */
  function LowTo(k: Package, origin: Vec3, axis: Vec3, n: nat): real
    requires 1 <= n
  {
    var value := Coordinate(CornerOf(k, n - 1), origin, axis);
    if n == 1 then value else Lower(LowTo(k, origin, axis, n - 1), value)
  }

  function HighTo(k: Package, origin: Vec3, axis: Vec3, n: nat): real
    requires 1 <= n
  {
    var value := Coordinate(CornerOf(k, n - 1), origin, axis);
    if n == 1 then value else Upper(HighTo(k, origin, axis, n - 1), value)
  }

  /** The bounds miss the drawing's plane or the shape within it. */
  predicate Skips(s: Shape, at: Placement, k: Package)
    requires |at.axes| == 3
  {
    || LowTo(k, at.origin, at.axes[2], 8) > s.plane
    || HighTo(k, at.origin, at.axes[2], 8) < -s.plane
    || LowTo(k, at.origin, at.axes[0], 8) >= s.bounds.high.x || HighTo(k, at.origin, at.axes[0], 8) <= s.bounds.low.x
    || LowTo(k, at.origin, at.axes[1], 8) >= s.bounds.high.y || HighTo(k, at.origin, at.axes[1], 8) <= s.bounds.low.y
  }

  lemma {:induction false} RangeHolds(k: Package, origin: Vec3, axis: Vec3, n: nat, i: nat)
    requires i < n
    ensures LowTo(k, origin, axis, n) <= Coordinate(CornerOf(k, i), origin, axis) <= HighTo(k, origin, axis, n)
    decreases n
  {
    hide Coordinate, CornerOf;
    if i < n - 1 {
      RangeHolds(k, origin, axis, n - 1, i);
    }
  }

  /** The corner with the given choice of side per axis. */
  lemma CornerWith(k: Package, x: bool, y: bool, z: bool) returns (i: nat)
    ensures i < 8
    ensures CornerOf(k, i) == Vec3(if x then k.max.x else k.min.x, if y then k.max.y else k.min.y, if z then k.max.z else k.min.z)
  {
    i := (if x then 1 else 0) + (if y then 2 else 0) + (if z then 4 else 0);
  }

  /** One axis of a coordinate. */
  function Term(p: real, origin: real, axis: real): real {
    (p - origin) * axis
  }

  lemma CoordinateTerms(p: Vec3, origin: Vec3, axis: Vec3)
    ensures Coordinate(p, origin, axis) == Term(p.x, origin.x, axis.x) + Term(p.y, origin.y, axis.y) + Term(p.z, origin.z, axis.z)
  {
  }

  lemma TermOrder(low: real, p: real, high: real, origin: real, axis: real)
    requires low <= p <= high
    ensures axis >= 0.0 ==> Term(low, origin, axis) <= Term(p, origin, axis) <= Term(high, origin, axis)
    ensures axis < 0.0 ==> Term(high, origin, axis) <= Term(p, origin, axis) <= Term(low, origin, axis)
  {
    if axis >= 0.0 {
      ProductNonNegative(p - low, axis);
      ProductNonNegative(high - p, axis);
    } else {
      ProductNonNegative(p - low, -axis);
      ProductNonNegative(high - p, -axis);
    }
  }

  /** A point in the bounds lies in the corners' range along every axis. */
  lemma PointInRange(k: Package, origin: Vec3, axis: Vec3, p: Vec3)
    requires InBounds(k, p)
    ensures LowTo(k, origin, axis, 8) <= Coordinate(p, origin, axis) <= HighTo(k, origin, axis, 8)
  {
    hide LowTo, HighTo, Coordinate, Term, CornerOf;
    TermOrder(k.min.x, p.x, k.max.x, origin.x, axis.x);
    TermOrder(k.min.y, p.y, k.max.y, origin.y, axis.y);
    TermOrder(k.min.z, p.z, k.max.z, origin.z, axis.z);
    var low := CornerWith(k, axis.x < 0.0, axis.y < 0.0, axis.z < 0.0);
    var high := CornerWith(k, axis.x >= 0.0, axis.y >= 0.0, axis.z >= 0.0);
    CoordinateTerms(p, origin, axis);
    CoordinateTerms(CornerOf(k, low), origin, axis);
    CoordinateTerms(CornerOf(k, high), origin, axis);
    RangeHolds(k, origin, axis, 8, low);
    RangeHolds(k, origin, axis, 8, high);
  }

  /** No triangle of a skipped host would have been accepted. */
  lemma SkippedTriangle(sqrt: real -> real, s: Shape, at: Placement, k: Package, t: Tri)
    requires |at.axes| == 3 && s.plane >= 0.0
    requires forall v :: 0 <= v < |k.vertices| ==> InBounds(k, k.vertices[v])
    requires Skips(s, at, k)
    ensures !TriangleAccepted(sqrt, s, at, k, t)
  {
    hide LowTo, HighTo, Coordinate, InBounds, Parallel;
    if t.a < |k.vertices| && t.b < |k.vertices| && t.c < |k.vertices| {
      forall i | 0 <= i < 3
        ensures LowTo(k, at.origin, at.axes[i], 8) <= Coordinate(k.vertices[t.a], at.origin, at.axes[i]) <= HighTo(k, at.origin, at.axes[i], 8)
        ensures LowTo(k, at.origin, at.axes[i], 8) <= Coordinate(k.vertices[t.b], at.origin, at.axes[i]) <= HighTo(k, at.origin, at.axes[i], 8)
        ensures LowTo(k, at.origin, at.axes[i], 8) <= Coordinate(k.vertices[t.c], at.origin, at.axes[i]) <= HighTo(k, at.origin, at.axes[i], 8)
      {
        PointInRange(k, at.origin, at.axes[i], k.vertices[t.a]);
        PointInRange(k, at.origin, at.axes[i], k.vertices[t.b]);
        PointInRange(k, at.origin, at.axes[i], k.vertices[t.c]);
      }
    }
  }

  /** The filter is conservative. */
  lemma {:induction false} SkippedFinds(sqrt: real -> real, s: Shape, at: Placement, k: Package, t: nat)
    requires |at.axes| == 3 && s.plane >= 0.0 && t <= |k.triangles|
    requires forall v :: 0 <= v < |k.vertices| ==> InBounds(k, k.vertices[v])
    requires Skips(s, at, k)
    ensures FacingFrom(sqrt, s, at, k, t) == None
    decreases |k.triangles| - t
  {
    hide TriangleAccepted, Skips, InBounds;
    if t < |k.triangles| {
      SkippedTriangle(sqrt, s, at, k, k.triangles[t]);
      SkippedFinds(sqrt, s, at, k, t + 1);
    }
  }

  // ---------------------------------------------------------------- the search

  ghost predicate Considered(s: Shape, h: Host) {
    h.id != s.id && h.definition != s.definition && h.package.Some? && h.placement.Some?
  }

  /** What a host contributes, walking all its triangles. */
  ghost function Contribution(sqrt: real -> real, hypot: (real, real) -> real, s: Shape, h: Host): seq<Found>
    requires ValidHost(h)
  {
    if !Considered(s, h) then []
    else
      var (k, at) := (h.package.value, h.placement.value);
      var facing := FacingFrom(sqrt, s, at, k, 0);
      if facing.Some? && !MilledAway(hypot, s, at, k.vertices) then [Found(h, facing.value)] else []
  }

  ghost predicate ValidHosts(hosts: seq<Host>) {
    forall i :: 0 <= i < |hosts| ==> ValidHost(hosts[i])
  }

  /** The hosts without any filter. */
  ghost function HostList(sqrt: real -> real, hypot: (real, real) -> real, s: Shape, hosts: seq<Host>, n: nat): seq<Found>
    requires ValidHosts(hosts) && n <= |hosts|
    decreases n
  {
    if n == 0 then [] else HostList(sqrt, hypot, s, hosts, n - 1) + Contribution(sqrt, hypot, s, hosts[n - 1])
  }

  /** A host other than the drawing whose solid is still missing. */
  ghost predicate Awaited(s: Shape, h: Host) {
    h.id != s.id && h.definition != s.definition && h.package.None?
  }

  /** One host, filtered. */
  method Examine(sqrt: real -> real, hypot: (real, real) -> real, s: Shape, h: Host, k: Package, at: Placement) returns (found: seq<Found>)
    requires ValidHost(h) && Considered(s, h) && k == h.package.value && at == h.placement.value
    requires s.plane >= 0.0 && (s.polygon.Some? ==> |s.polygon.value| > 0)
    ensures found == Contribution(sqrt, hypot, s, h)
  {
    hide Skips, InBounds, MilledAway, FacingFrom;
    if Skips(s, at, k) {
      SkippedFinds(sqrt, s, at, k, 0);
      return [];
    }
    var facing := FacingFrom(sqrt, s, at, k, 0);
    if facing.None? {
      return [];
    }
    var milled := IsMilledAway(hypot, s, at, k.vertices);
    found := if milled then [] else [Found(h, facing.value)];
  }

  /** One occurrence: its contribution, and whether its solid is awaited. */
  method Visit(sqrt: real -> real, hypot: (real, real) -> real, s: Shape, h: Host) returns (found: seq<Found>, awaited: bool)
    requires ValidHost(h) && s.plane >= 0.0 && (s.polygon.Some? ==> |s.polygon.value| > 0)
    ensures found == Contribution(sqrt, hypot, s, h)
    ensures awaited <==> Awaited(s, h)
  {
    hide ValidHost, MilledAway, FacingFrom;
    if h.id == s.id || h.definition == s.definition {
      return [], false;
    }
    if h.package.None? {
      return [], true;
    }
    if h.placement.None? {
      return [], false;
    }
    found := Examine(sqrt, hypot, s, h, h.package.value, h.placement.value);
    awaited := false;
  }

  ghost predicate AnyAwaited(s: Shape, hosts: seq<Host>, n: nat)
    requires n <= |hosts|
  {
    exists i :: 0 <= i < n && Awaited(s, hosts[i])
  }

  /** Another occurrence of another part, known and placed, with a triangle
      under the shape, that pushing the shape through would not remove. */
  ghost predicate Carries(sqrt: real -> real, hypot: (real, real) -> real, s: Shape, h: Host)
    requires ValidHost(h)
  {
    && Considered(s, h)
    && (exists t :: 0 <= t < |h.package.value.triangles| && TriangleUnder(sqrt, s, h.placement.value, h.package.value, t))
    && !(s.polygon.Some? && forall v :: 0 <= v < |h.package.value.vertices| ==>
                                          Reaches(hypot, s, h.placement.value, s.polygon.value, h.package.value.vertices[v]))
  }

  /** The entry says which way the first such triangle looks. */
  ghost predicate Reports(sqrt: real -> real, s: Shape, f: Found) {
    && ValidHost(f.host) && Considered(s, f.host)
    && exists t :: 0 <= t < |f.host.package.value.triangles|
                   && Looks(sqrt, s, f.host.placement.value, f.host.package.value, t, f.facing)
  }

  lemma MilledAwayMeans(hypot: (real, real) -> real, s: Shape, at: Placement, vertices: seq<Vec3>)
    requires |at.axes| == 3 && s.plane >= 0.0
    ensures MilledAway(hypot, s, at, vertices) <==>
            s.polygon.Some? && forall v :: 0 <= v < |vertices| ==> Reaches(hypot, s, at, s.polygon.value, vertices[v])
  {
    hide InPrism, Reaches;
    if s.polygon.Some? {
      forall v | 0 <= v < |vertices|
        ensures InPrism(hypot, s, at, s.polygon.value, vertices[v]) <==> Reaches(hypot, s, at, s.polygon.value, vertices[v])
      {
        PrismMeans(hypot, s, at, s.polygon.value, vertices[v]);
      }
    }
  }

  lemma ContributionMeans(sqrt: real -> real, hypot: (real, real) -> real, s: Shape, h: Host)
    requires ValidHost(h) && s.plane >= 0.0
    ensures var found := Contribution(sqrt, hypot, s, h);
            if Carries(sqrt, hypot, s, h) then |found| == 1 && found[0].host == h && Reports(sqrt, s, found[0]) else found == []
  {
    hide MilledAway, FacingFrom, TriangleUnder, Looks, InBounds, Reaches;
    if Considered(s, h) {
      MilledAwayMeans(hypot, s, h.placement.value, h.package.value.vertices);
      FacingFound(sqrt, s, h.placement.value, h.package.value, 0);
    }
  }

  /** The occurrences that carry the shape, among the first n. */
  ghost function Carriers(sqrt: real -> real, hypot: (real, real) -> real, s: Shape, hosts: seq<Host>, n: nat): seq<Host>
    requires ValidHosts(hosts) && n <= |hosts|
    decreases n
  {
    if n == 0 then []
    else Carriers(sqrt, hypot, s, hosts, n - 1) + (if Carries(sqrt, hypot, s, hosts[n - 1]) then [hosts[n - 1]] else [])
  }

  /** The list names the carriers in order, each with the way it looks. */
  lemma {:induction false} HostListMeans(sqrt: real -> real, hypot: (real, real) -> real, s: Shape, hosts: seq<Host>, n: nat)
    requires ValidHosts(hosts) && n <= |hosts| && s.plane >= 0.0
    ensures var (found, carriers) := (HostList(sqrt, hypot, s, hosts, n), Carriers(sqrt, hypot, s, hosts, n));
            |found| == |carriers| && forall i :: 0 <= i < |found| ==> found[i].host == carriers[i] && Reports(sqrt, s, found[i])
    decreases n
  {
    hide ValidHost, Contribution, Carries, Reports;
    if n > 0 {
      HostListMeans(sqrt, hypot, s, hosts, n - 1);
      ContributionMeans(sqrt, hypot, s, hosts[n - 1]);
    }
  }

  /** The hosts found, and whether a solid is still awaited. */
  datatype Search = Search(found: seq<Found>, pending: bool)

  /** The filtered search finds exactly the hosts that the unfiltered one would,
      in the same order, and reports whether a solid is still awaited. */
  method FindHosts(sqrt: real -> real, hypot: (real, real) -> real, s: Shape, hosts: seq<Host>, evaluating: bool)
    returns (r: Search)
    requires ValidHosts(hosts) && s.plane >= 0.0 && (s.polygon.Some? ==> |s.polygon.value| > 0)
    ensures r.found == HostList(sqrt, hypot, s, hosts, |hosts|)
    ensures |r.found| == |Carriers(sqrt, hypot, s, hosts, |hosts|)|
    ensures forall i :: 0 <= i < |r.found| ==>
                          r.found[i].host == Carriers(sqrt, hypot, s, hosts, |hosts|)[i] && Reports(sqrt, s, r.found[i])
    ensures r.pending <==> evaluating && AnyAwaited(s, hosts, |hosts|)
  {
    hide ValidHost, Contribution, Awaited, Carries, Reports;
    var found: seq<Found>, pending := [], false;
    for n := 0 to |hosts|
      invariant found == HostList(sqrt, hypot, s, hosts, n)
      invariant pending <==> evaluating && AnyAwaited(s, hosts, n)
    {
      var more, awaited := Visit(sqrt, hypot, s, hosts[n]);
      found := found + more;
      pending := pending || (awaited && evaluating);
    }
    HostListMeans(sqrt, hypot, s, hosts, |hosts|);
    r := Search(found, pending);
  }
}
