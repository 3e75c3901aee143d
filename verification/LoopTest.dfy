/** The even-odd test of a point against a closed polygon, with a tolerance
    around the boundary. */
module LoopTest {
  import opened RealVectors

  datatype Vec2 = Vec2(x: real, y: real)

  /** The library hypotenuse: any function with this property. */
  ghost predicate IsHypot(hypot: (real, real) -> real) {
    forall x, y :: hypot(x, y) >= 0.0 && hypot(x, y) * hypot(x, y) == x * x + y * y
  }

  datatype Side = Side(previous: Vec2, next: Vec2) {
    function Dx(): real {
      next.x - previous.x
    }

    function Dy(): real {
      next.y - previous.y
    }

    function LengthSquared(): real {
      Dx() * Dx() + Dy() * Dy()
    }

    function Reversed(): Side {
      Side(next, previous)
    }
  }

  function Clamp(t: real): real {
    if t < 0.0 then 0.0 else if t > 1.0 then 1.0 else t
  }

  /** Projection of p onto the side's direction, times the squared length. */
  function Along(s: Side, p: Vec2): real {
    (p.x - s.previous.x) * s.Dx() + (p.y - s.previous.y) * s.Dy()
  }

  /** Where on the side, from 0 to 1, the point nearest to p is. */
  function Foot(s: Side, p: Vec2): (t: real)
    ensures 0.0 <= t <= 1.0
  {
    if s.LengthSquared() > 0.0 then Clamp(Along(s, p) / s.LengthSquared()) else 0.0
  }

  /** From the nearest point of the side to p. */
  function Gap(s: Side, p: Vec2): Vec2 {
    var t := Foot(s, p);
    Vec2(p.x - s.previous.x - t * s.Dx(), p.y - s.previous.y - t * s.Dy())
  }

  predicate Near(hypot: (real, real) -> real, s: Side, p: Vec2, tolerance: real) {
    hypot(Gap(s, p).x, Gap(s, p).y) <= tolerance
  }

  /** One end is above p and the other is not. */
  predicate Straddles(s: Side, p: Vec2) {
    (s.next.y > p.y) != (s.previous.y > p.y)
  }

  /** Where the side meets the horizontal through p. */
  function MeetsAt(s: Side, p: Vec2): real
    requires Straddles(s, p)
  {
    s.previous.x + Shift(s.Dx(), p.y - s.previous.y, s.Dy())
  }

  /** How far along x a slope dx / dy gets over a rise y. */
  function Shift(dx: real, y: real, dy: real): real
    requires dy != 0.0
  {
    dx * y / dy
  }

  predicate Crosses(s: Side, p: Vec2) {
    Straddles(s, p) && p.x < MeetsAt(s, p)
  }

  /** The sides in the order they are visited: the closing one first. */
  function Sides(polygon: seq<Vec2>): (r: seq<Side>)
    ensures |r| == |polygon|
  {
    seq(|polygon|, i requires 0 <= i < |polygon| =>
      Side(if i == 0 then polygon[|polygon| - 1] else polygon[i - 1], polygon[i]))
  }

  function Crossings(sides: seq<Side>, p: Vec2): nat {
    if sides == [] then 0 else Crossings(sides[..|sides| - 1], p) + (if Crosses(sides[|sides| - 1], p) then 1 else 0)
  }

  ghost predicate NearAny(hypot: (real, real) -> real, sides: seq<Side>, p: Vec2, tolerance: real) {
    exists i :: 0 <= i < |sides| && Near(hypot, sides[i], p, tolerance)
  }

  /** Close to some side, or to the left of an odd number of crossing sides. */
  ghost predicate Within(hypot: (real, real) -> real, polygon: seq<Vec2>, p: Vec2, tolerance: real) {
    NearAny(hypot, Sides(polygon), p, tolerance) || Crossings(Sides(polygon), p) % 2 == 1
  }

  method WithinLoop(hypot: (real, real) -> real, polygon: seq<Vec2>, p: Vec2, tolerance: real) returns (r: bool)
    requires |polygon| > 0
    ensures r <==> Within(hypot, polygon, p, tolerance)
  {
    hide Near, Crosses;
    ghost var sides := Sides(polygon);
    r := false;
    var previous := polygon[|polygon| - 1];
    for i := 0 to |polygon|
      invariant previous == if i == 0 then polygon[|polygon| - 1] else polygon[i - 1]
      invariant r <==> Crossings(sides[..i], p) % 2 == 1
      invariant forall k :: 0 <= k < i ==> !Near(hypot, sides[k], p, tolerance)
    {
      var side := Side(previous, polygon[i]);
      assert side == sides[i] && sides[..i + 1][..i] == sides[..i];
      if Near(hypot, side, p, tolerance) {
        return true;
      }
      if Crosses(side, p) {
        r := !r;
      }
      previous := polygon[i];
    }
    assert sides[..|sides|] == sides;
  }

  // ---------------------------------------------------------------- rotation

  lemma {:induction false} CrossingsAppend(a: seq<Side>, b: seq<Side>, p: Vec2)
    ensures Crossings(a + b, p) == Crossings(a, p) + Crossings(b, p)
    decreases |b|
  {
    hide Crosses;
    if b == [] {
      assert a + b == a;
    } else {
      CrossingsAppend(a, b[..|b| - 1], p);
      assert (a + b)[..|a + b| - 1] == a + b[..|b| - 1];
    }
  }

  lemma RotatedSides(polygon: seq<Vec2>, k: nat)
    requires k <= |polygon|
    ensures Sides(polygon[k..] + polygon[..k]) == Sides(polygon)[k..] + Sides(polygon)[..k]
  {
    var (n, r) := (|polygon|, polygon[k..] + polygon[..k]);
    forall i | 0 <= i < n
      ensures Sides(r)[i] == (Sides(polygon)[k..] + Sides(polygon)[..k])[i]
    {
      var j := if i < n - k then k + i else i - (n - k);
      assert r[i] == polygon[j];
      assert i > 0 ==> r[i - 1] == if j == 0 then polygon[n - 1] else polygon[j - 1];
      assert i == 0 && k < n ==> r[n - 1] == if k == 0 then polygon[n - 1] else polygon[k - 1];
    }
  }

  /** Starting the loop at another vertex does not change the answer. */
  lemma RotationInvariant(hypot: (real, real) -> real, polygon: seq<Vec2>, k: nat, p: Vec2, tolerance: real)
    requires k <= |polygon|
    ensures Within(hypot, polygon[k..] + polygon[..k], p, tolerance) <==> Within(hypot, polygon, p, tolerance)
  {
    hide Near, Crosses, Crossings;
    RotatedSides(polygon, k);
    var (s, r) := (Sides(polygon), Sides(polygon[k..] + polygon[..k]));
    hide Sides;
    assert s == s[..k] + s[k..];
    CrossingsAppend(s[..k], s[k..], p);
    CrossingsAppend(s[k..], s[..k], p);
    forall i | 0 <= i < |s|
      ensures exists j :: 0 <= j < |r| && r[j] == s[i]
      ensures exists j :: 0 <= j < |s| && s[j] == r[i]
    {
      assert r[if i < k then |s| - k + i else i - k] == s[i];
      assert s[if i < |s| - k then k + i else i - (|s| - k)] == r[i];
    }
  }

  // ---------------------------------------------------------------- reversal

  lemma ReversedLength(s: Side, p: Vec2)
    ensures s.Reversed().LengthSquared() == s.LengthSquared()
    ensures Along(s.Reversed(), p) == s.LengthSquared() - Along(s, p)
  {
    AlongScalars(p.x - s.previous.x, p.y - s.previous.y, s.Dx(), s.Dy());
    assert p.x - s.next.x == p.x - s.previous.x - s.Dx();
    assert p.y - s.next.y == p.y - s.previous.y - s.Dy();
  }

  lemma AlongScalars(x: real, y: real, dx: real, dy: real)
    ensures (x - dx) * (-dx) + (y - dy) * (-dy) == dx * dx + dy * dy - (x * dx + y * dy)
    ensures (-dx) * (-dx) + (-dy) * (-dy) == dx * dx + dy * dy
  {
  }

  lemma Complement(a: real, l: real)
    requires l > 0.0
    ensures Clamp((l - a) / l) == 1.0 - Clamp(a / l)
  {
    DivideBack(l, l - a);
    DivideBack(l, a);
    assert l * (1.0 - a / l) == l - l * (a / l);
    CancelFactor(l, (l - a) / l, 1.0 - a / l);
  }

  lemma LengthZero(s: Side)
    requires s.LengthSquared() <= 0.0
    ensures s.Dx() == 0.0 && s.Dy() == 0.0
  {
    SquareSign(s.Dx());
    SquareSign(s.Dy());
    assert s.LengthSquared() == Square(s.Dx()) + Square(s.Dy());
    hide Square, Side.LengthSquared, Side.Dx, Side.Dy;
  }

  lemma ReversedGap(s: Side, p: Vec2)
    ensures Gap(s.Reversed(), p) == Gap(s, p)
  {
    ReversedLength(s, p);
    hide Along;
    var r := s.Reversed();
    if s.LengthSquared() > 0.0 {
      hide Side.LengthSquared, Clamp;
      Complement(Along(s, p), s.LengthSquared());
      assert Foot(r, p) == 1.0 - Foot(s, p);
      hide Foot;
      OppositeFoot(Foot(s, p), s.Dx());
      OppositeFoot(Foot(s, p), s.Dy());
    } else {
      LengthZero(s);
    }
  }

  lemma OppositeFoot(t: real, d: real)
    ensures (1.0 - t) * (-d) == t * d - d
  {
  }

  lemma MeetScalars(x: real, dx: real, y: real, dy: real)
    requires dy != 0.0
    ensures x + dx + Shift(-dx, y - dy, -dy) == x + Shift(dx, y, dy)
  {
    assert (-dx) * (y - dy) / (-dy) == dx * (y - dy) / dy;
    assert dx * (y - dy) == dx * y - dx * dy;
    assert dx * (y - dy) / dy == dx * y / dy - dx;
  }

  lemma ReversedCrosses(s: Side, p: Vec2)
    ensures Crosses(s.Reversed(), p) <==> Crosses(s, p)
  {
    if Straddles(s, p) {
      MeetScalars(s.previous.x, s.Dx(), p.y - s.previous.y, s.Dy());
      assert s.Reversed().Dx() == -s.Dx() && s.Reversed().Dy() == -s.Dy();
      assert p.y - s.next.y == p.y - s.previous.y - s.Dy();
      assert MeetsAt(s.Reversed(), p) == MeetsAt(s, p);
    }
  }

  function Backward<X>(s: seq<X>): (r: seq<X>)
    ensures |r| == |s|
  {
    seq(|s|, i requires 0 <= i < |s| => s[|s| - 1 - i])
  }

  function Turned(sides: seq<Side>): (r: seq<Side>)
    ensures |r| == |sides|
  {
    seq(|sides|, i requires 0 <= i < |sides| => sides[|sides| - 1 - i].Reversed())
  }

  lemma {:induction false} CrossingsTurned(sides: seq<Side>, p: Vec2)
    ensures Crossings(Turned(sides), p) == Crossings(sides, p)
    decreases |sides|
  {
    hide Crosses;
    if sides != [] {
      var n := |sides| - 1;
      CrossingsTurned(sides[..n], p);
      assert Turned(sides) == [sides[n].Reversed()] + Turned(sides[..n]);
      CrossingsAppend([sides[n].Reversed()], Turned(sides[..n]), p);
      ReversedCrosses(sides[n], p);
      assert Crossings([sides[n].Reversed()], p) == if Crosses(sides[n].Reversed(), p) then 1 else 0;
    }
  }

  lemma BackwardSides(polygon: seq<Vec2>)
    requires |polygon| > 0
    ensures Sides(Backward(polygon)) == [Sides(polygon)[0].Reversed()] + Turned(Sides(polygon)[1..])
  {
    var (n, s, b) := (|polygon|, Sides(polygon), Backward(polygon));
    var expected := [s[0].Reversed()] + Turned(s[1..]);
    forall i | 0 <= i < n
      ensures Sides(b)[i] == expected[i]
    {
      if i > 0 {
        assert expected[i] == s[n - i].Reversed();
      }
    }
  }

  /** Walking the loop the other way round does not change the answer. */
  lemma ReversalInvariant(hypot: (real, real) -> real, polygon: seq<Vec2>, p: Vec2, tolerance: real)
    requires |polygon| > 0
    ensures Within(hypot, Backward(polygon), p, tolerance) <==> Within(hypot, polygon, p, tolerance)
  {
    hide Crosses, Crossings, Gap;
    BackwardSides(polygon);
    var (s, b) := (Sides(polygon), Sides(Backward(polygon)));
    hide Sides, Backward;
    var n := |s|;
    assert s == [s[0]] + s[1..];
    CrossingsAppend([s[0].Reversed()], Turned(s[1..]), p);
    CrossingsAppend([s[0]], s[1..], p);
    CrossingsTurned(s[1..], p);
    CrossingsTurned([s[0]], p);
    assert Turned([s[0]]) == [s[0].Reversed()];
    forall i | 0 <= i < n
      ensures Near(hypot, b[if i == 0 then 0 else n - i], p, tolerance) <==> Near(hypot, s[i], p, tolerance)
      ensures Near(hypot, b[i], p, tolerance) <==> Near(hypot, s[if i == 0 then 0 else n - i], p, tolerance)
    {
      ReversedGap(s[i], p);
      ReversedGap(s[if i == 0 then 0 else n - i], p);
      assert i > 0 ==> b[n - i] == s[i].Reversed() && b[i] == s[n - i].Reversed();
    }
    hide Near;
    if NearAny(hypot, s, p, tolerance) {
      var i :| 0 <= i < n && Near(hypot, s[i], p, tolerance);
      assert Near(hypot, b[if i == 0 then 0 else n - i], p, tolerance);
    }
    if NearAny(hypot, b, p, tolerance) {
      var i :| 0 <= i < n && Near(hypot, b[i], p, tolerance);
      assert Near(hypot, s[if i == 0 then 0 else n - i], p, tolerance);
    }
  }
}
