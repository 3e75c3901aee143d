/** Points far outside a polygon's bounds are never inside it. */
module LoopReach {
  import opened RealVectors
  import opened LoopTest

  datatype Box = Box(low: Vec2, high: Vec2)

  predicate InBox(b: Box, v: Vec2) {
    b.low.x <= v.x <= b.high.x && b.low.y <= v.y <= b.high.y
  }

  ghost predicate AllInBox(b: Box, polygon: seq<Vec2>) {
    forall i :: 0 <= i < |polygon| ==> InBox(b, polygon[i])
  }

  /** Farther than the tolerance from every point of the box. */
  ghost predicate Beyond(hypot: (real, real) -> real, b: Box, p: Vec2, tolerance: real) {
    forall q :: InBox(b, q) ==> hypot(p.x - q.x, p.y - q.y) > tolerance
  }

  /** Farther than the tolerance from the box along some axis. */
  predicate FarOutside(b: Box, p: Vec2, tolerance: real) {
    || p.x < b.low.x - tolerance || p.x > b.high.x + tolerance
    || p.y < b.low.y - tolerance || p.y > b.high.y + tolerance
  }

  // ---------------------------------------------------------------- never near

  lemma Between(a: real, b: real, t: real, low: real, high: real)
    requires 0.0 <= t <= 1.0 && low <= a <= high && low <= b <= high
    ensures low <= a + t * (b - a) <= high
  {
    assert a + t * (b - a) - low == (1.0 - t) * (a - low) + t * (b - low);
    assert high - a - t * (b - a) == (1.0 - t) * (high - a) + t * (high - b);
    ProductNonNegative(1.0 - t, a - low);
    ProductNonNegative(t, b - low);
    ProductNonNegative(1.0 - t, high - a);
    ProductNonNegative(t, high - b);
  }

  lemma SquareOrder(a: real, b: real)
    requires 0.0 <= a <= b
    ensures a * a <= b * b
  {
    ProductNonNegative(b - a, b + a);
    assert (b - a) * (b + a) == b * b - a * a;
  }

  /** The hypotenuse is at least as long as either leg. */
  lemma LegBound(hypot: (real, real) -> real, x: real, y: real, tolerance: real)
    requires IsHypot(hypot) && tolerance >= 0.0 && hypot(x, y) <= tolerance
    ensures -tolerance <= x <= tolerance && -tolerance <= y <= tolerance
  {
    var h := hypot(x, y);
    SquareOrder(h, tolerance);
    assert h * h == x * x + y * y;
    SquareSign(x);
    SquareSign(y);
    Leg(x, tolerance);
    Leg(y, tolerance);
  }

  lemma Leg(x: real, tolerance: real)
    requires tolerance >= 0.0
    ensures x * x <= tolerance * tolerance ==> -tolerance <= x <= tolerance
  {
    if x > tolerance {
      SquareStrict(tolerance, x);
    } else if x < -tolerance {
      SquareStrict(tolerance, -x);
      assert (-x) * (-x) == x * x;
    }
  }

  lemma SquareStrict(a: real, b: real)
    requires 0.0 <= a < b
    ensures a * a < b * b
  {
    SameSigns(b - a, b + a, (b - a) * (b + a));
    assert (b - a) * (b + a) == b * b - a * a;
  }

  /** The point of the side nearest to p lies in the box. */
  lemma FootInside(b: Box, s: Side, p: Vec2) returns (q: Vec2)
    requires InBox(b, s.previous) && InBox(b, s.next)
    ensures InBox(b, q) && Gap(s, p) == Vec2(p.x - q.x, p.y - q.y)
  {
    var t := Foot(s, p);
    hide Foot;
    Between(s.previous.x, s.next.x, t, b.low.x, b.high.x);
    Between(s.previous.y, s.next.y, t, b.low.y, b.high.y);
    q := Vec2(s.previous.x + t * s.Dx(), s.previous.y + t * s.Dy());
  }

  lemma NeverNear(hypot: (real, real) -> real, b: Box, s: Side, p: Vec2, tolerance: real)
    requires Beyond(hypot, b, p, tolerance) && InBox(b, s.previous) && InBox(b, s.next)
    ensures !Near(hypot, s, p, tolerance)
  {
    var q := FootInside(b, s, p);
    hide InBox, Gap;
  }

  // ---------------------------------------------------------------- an even number of crossings

  /** How many sides have ends that `r` tells apart. */
  function Flips(sides: seq<Side>, r: Vec2 -> bool): nat {
    if sides == [] then 0
    else Flips(sides[..|sides| - 1], r) + (if r(sides[|sides| - 1].previous) != r(sides[|sides| - 1].next) then 1 else 0)
  }

  lemma SidesPrefix(polygon: seq<Vec2>, i: nat)
    requires 0 < i <= |polygon|
    ensures Sides(polygon)[..i][..i - 1] == Sides(polygon)[..i - 1]
  {
  }

  /** Walking from the last vertex to vertex i - 1 changes `r` an even number of
      times exactly when it is the same for both. */
  lemma {:induction false} FlipsParity(polygon: seq<Vec2>, r: Vec2 -> bool, i: nat)
    requires 0 < i <= |polygon|
    ensures Flips(Sides(polygon)[..i], r) % 2 == if r(polygon[i - 1]) == r(polygon[|polygon| - 1]) then 0 else 1
    decreases i
  {
    SidesPrefix(polygon, i);
    var s := Sides(polygon)[i - 1];
    if i > 1 {
      FlipsParity(polygon, r, i - 1);
    } else {
      assert Sides(polygon)[..0] == [];
    }
    assert Flips(Sides(polygon)[..i], r) == Flips(Sides(polygon)[..i - 1], r) + (if r(s.previous) != r(s.next) then 1 else 0);
  }

  /** Around a closed polygon it changes an even number of times. */
  lemma FlipsEven(polygon: seq<Vec2>, r: Vec2 -> bool)
    ensures Flips(Sides(polygon), r) % 2 == 0
  {
    if polygon != [] {
      FlipsParity(polygon, r, |polygon|);
      assert Sides(polygon)[..|polygon|] == Sides(polygon);
    }
  }

  /** How many sides cross the horizontal through p. */
  function Straddling(sides: seq<Side>, p: Vec2): nat {
    Flips(sides, (v: Vec2) => v.y > p.y)
  }

  /** A closed polygon crosses any horizontal an even number of times. */
  lemma StraddlingEven(polygon: seq<Vec2>, p: Vec2)
    ensures Straddling(Sides(polygon), p) % 2 == 0
  {
    FlipsEven(polygon, (v: Vec2) => v.y > p.y);
  }

  lemma MeetBetween(a: real, b: real, dx: real, y: real, dy: real, low: real, high: real)
    requires (0.0 <= y <= dy && dy > 0.0) || (dy <= y <= 0.0 && dy < 0.0)
    requires low <= a <= high && low <= b <= high && dx == b - a
    ensures low <= a + Shift(dx, y, dy) <= high
  {
    var t := y / dy;
    Ratio(y, dy);
    Regroup(dx, y, dy);
    Between(a, b, t, low, high);
  }

  lemma MeetInside(b: Box, s: Side, p: Vec2)
    requires InBox(b, s.previous) && InBox(b, s.next) && Straddles(s, p)
    ensures b.low.x <= MeetsAt(s, p) <= b.high.x
  {
    hide Shift;
    MeetBetween(s.previous.x, s.next.x, s.Dx(), p.y - s.previous.y, s.Dy(), b.low.x, b.high.x);
  }

  lemma Ratio(y: real, dy: real)
    requires (0.0 <= y <= dy && dy > 0.0) || (dy <= y <= 0.0 && dy < 0.0)
    ensures 0.0 <= y / dy <= 1.0
  {
  }

  lemma Regroup(dx: real, y: real, dy: real)
    requires dy != 0.0
    ensures dx * y / dy == y / dy * dx
  {
  }

  lemma OutsideCrosses(b: Box, s: Side, p: Vec2)
    requires !InBox(b, p) && InBox(b, s.previous) && InBox(b, s.next)
    ensures Crosses(s, p) <==> p.x < b.low.x && Straddles(s, p)
  {
    if Straddles(s, p) {
      MeetInside(b, s, p);
    }
    hide MeetsAt;
  }

  /** Left of the box every straddling side crosses; elsewhere none does. */
  lemma {:induction false} OutsideCrossings(b: Box, sides: seq<Side>, p: Vec2)
    requires !InBox(b, p)
    requires forall i :: 0 <= i < |sides| ==> InBox(b, sides[i].previous) && InBox(b, sides[i].next)
    ensures Crossings(sides, p) == if p.x < b.low.x then Straddling(sides, p) else 0
    decreases |sides|
  {
    hide Crosses, InBox;
    if sides != [] {
      var n := |sides| - 1;
      OutsideCrossings(b, sides[..n], p);
      OutsideCrosses(b, sides[n], p);
    }
  }

  lemma BeyondOutside(hypot: (real, real) -> real, b: Box, p: Vec2, tolerance: real)
    requires IsHypot(hypot) && tolerance >= 0.0 && Beyond(hypot, b, p, tolerance)
    ensures !InBox(b, p)
  {
    ZeroHypot(hypot, p.x - p.x, p.y - p.y);
  }

  lemma ZeroHypot(hypot: (real, real) -> real, x: real, y: real)
    requires IsHypot(hypot) && x == 0.0 && y == 0.0
    ensures hypot(x, y) == 0.0
  {
    SquareSign(hypot(x, y));
  }

  /** A polygon in a box contains no point whose distance from every point of
      the box exceeds the tolerance. */
  lemma FarIsOutside(hypot: (real, real) -> real, b: Box, polygon: seq<Vec2>, p: Vec2, tolerance: real)
    requires IsHypot(hypot) && tolerance >= 0.0
    requires AllInBox(b, polygon) && Beyond(hypot, b, p, tolerance)
    ensures !Within(hypot, polygon, p, tolerance)
  {
    BeyondOutside(hypot, b, p, tolerance);
    hide Near, IsHypot, Crossings, Straddling, InBox, Beyond;
    var sides := Sides(polygon);
    forall i | 0 <= i < |sides|
      ensures InBox(b, sides[i].previous) && InBox(b, sides[i].next)
      ensures !Near(hypot, sides[i], p, tolerance)
    {
      NeverNear(hypot, b, sides[i], p, tolerance);
    }
    OutsideCrossings(b, sides, p);
    StraddlingEven(polygon, p);
  }

  /** Beyond the tolerance along one axis is beyond it in every direction. */
  lemma FarIsBeyond(hypot: (real, real) -> real, b: Box, p: Vec2, tolerance: real)
    requires IsHypot(hypot) && tolerance >= 0.0 && FarOutside(b, p, tolerance)
    ensures Beyond(hypot, b, p, tolerance)
  {
    forall q | InBox(b, q)
      ensures hypot(p.x - q.x, p.y - q.y) > tolerance
    {
      if hypot(p.x - q.x, p.y - q.y) <= tolerance {
        LegBound(hypot, p.x - q.x, p.y - q.y, tolerance);
      }
    }
  }
}
