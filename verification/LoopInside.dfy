/** Which points are inside a loop: those a line separates from it are not,
    those strictly inside a convex one are, and near means near. */
module LoopInside {
  import opened RealVectors
  import opened LoopTest
  import opened LoopReach
  import LoopOutline
  import opened LoopParity

  // ---------------------------------------------------------------- passing means meeting

  /** Two lines that are not parallel have one point in common. */
  lemma OnePoint(ex: real, ey: real, fx: real, fy: real, x: real, y: real)
    requires ex * fy - ey * fx != 0.0 && ex * y - ey * x == 0.0 && fx * y - fy * x == 0.0
    ensures x == 0.0 && y == 0.0
  {
    var d := ex * fy - ey * fx;
    assert d * x == fx * (ex * y - ey * x) - ex * (fx * y - fy * x);
    assert d * y == fy * (ex * y - ey * x) - ey * (fx * y - fy * x);
    CancelFactor(d, x, 0.0);
    CancelFactor(d, y, 0.0);
  }

  lemma SamePoint(a: Vec2, b: Vec2, p: Vec2, q: Vec2, m: Vec2, n: Vec2)
    requires Turn(a, b, m) == Turn(a, b, n) && Turn(p, q, m) == Turn(p, q, n) && Turn(a, b, p) != Turn(a, b, q)
    ensures m == n
  {
    var (ex, ey, fx, fy) := (b.x - a.x, b.y - a.y, q.x - p.x, q.y - p.y);
    TurnStep(a, b, p, q, ex, ey, fx, fy);
    TurnStep(a, b, n, m, ex, ey, m.x - n.x, m.y - n.y);
    TurnStep(p, q, n, m, fx, fy, m.x - n.x, m.y - n.y);
    hide Turn;
    OnePoint(ex, ey, fx, fy, m.x - n.x, m.y - n.y);
  }

  /** A side that is passed is met. */
  lemma PassedIsMet(s: Side, p: Vec2, q: Vec2)
    requires Passes(s, p, q)
    ensures Meets(s, p, q)
  {
    hide Turn, At;
    var (a, b) := (s.previous, s.next);
    var u := ZeroBetween(Turn(p, q, a), Turn(p, q, b));
    var t := ZeroBetween(Turn(a, b, p), Turn(a, b, q));
    TurnAt(p, q, a, b, u);
    TurnAt(a, b, p, q, t);
    TurnOnLine(p, q, t);
    TurnOnLine(a, b, u);
    SamePoint(a, b, p, q, At(a, b, u), At(p, q, t));
  }

  lemma {:induction false} NonePassed(sides: seq<Side>, p: Vec2, q: Vec2)
    requires forall i :: 0 <= i < |sides| ==> !Meets(sides[i], p, q)
    ensures Passed(sides, p, q) == 0
    decreases |sides|
  {
    hide Meets, Passes;
    if sides != [] {
      var n := |sides| - 1;
      NonePassed(sides[..n], p, q);
      if Passes(sides[n], p, q) {
        PassedIsMet(sides[n], p, q);
      }
    }
  }

  /** Two points joined by a segment that meets no side are on the same side of
      the loop. */
  lemma SameRegion(polygon: seq<Vec2>, p: Vec2, q: Vec2)
    requires forall i :: 0 <= i < |polygon| ==> !Meets(Sides(polygon)[i], p, q)
    ensures Crossings(Sides(polygon), p) % 2 == Crossings(Sides(polygon), q) % 2
  {
    hide Meets, Passes, Crossings, Passed;
    NonePassed(Sides(polygon), p, q);
    ParityLaw(polygon, p, q);
  }

  /** Passing one side and meeting no other changes sides. */
  lemma OtherRegion(polygon: seq<Vec2>, p: Vec2, q: Vec2, k: nat)
    requires k < |polygon| && Passes(Sides(polygon)[k], p, q)
    requires forall i :: 0 <= i < |polygon| && i != k ==> !Meets(Sides(polygon)[i], p, q)
    ensures Crossings(Sides(polygon), p) % 2 != Crossings(Sides(polygon), q) % 2
  {
    hide Meets, Passes, Crossings, Passed, Sides;
    OnePassed(Sides(polygon), p, q, k);
    ParityLaw(polygon, p, q);
  }

  lemma {:induction false} OnePassed(sides: seq<Side>, p: Vec2, q: Vec2, k: nat)
    requires k < |sides| && Passes(sides[k], p, q)
    requires forall i :: 0 <= i < |sides| && i != k ==> !Meets(sides[i], p, q)
    ensures Passed(sides, p, q) == 1
    decreases |sides|
  {
    hide Meets, Passes;
    var n := |sides| - 1;
    if k == n {
      NonePassed(sides[..n], p, q);
    } else {
      OnePassed(sides[..n], p, q, k);
      if Passes(sides[n], p, q) {
        PassedIsMet(sides[n], p, q);
      }
    }
  }

  // ---------------------------------------------------------------- separated by a line

  lemma {:induction false} SomeBox(polygon: seq<Vec2>) returns (b: Box)
    ensures AllInBox(b, polygon)
    decreases |polygon|
  {
    if polygon == [] {
      b := Box(Vec2(0.0, 0.0), Vec2(0.0, 0.0));
    } else {
      var n := |polygon| - 1;
      var r := SomeBox(polygon[..n]);
      var v := polygon[n];
      b := Box(Vec2(LoopOutline.Lower(r.low.x, v.x), LoopOutline.Lower(r.low.y, v.y)), Vec2(LoopOutline.Upper(r.high.x, v.x), LoopOutline.Upper(r.high.y, v.y)));
      forall i | 0 <= i < |polygon|
        ensures InBox(b, polygon[i])
      {
        if i < n {
          assert InBox(r, polygon[..n][i]);
        }
      }
    }
  }

  /** Far enough along n, a coordinate leaves every interval. */
  lemma Leaves(x: real, n: real, low: real, high: real) returns (m: real)
    requires n != 0.0
    ensures m >= 0.0 && (x + m * n < low || x + m * n > high)
  {
    var bound := if n > 0.0 then high else low;
    var distance := Abs(bound - x) + 1.0;
    m := distance / Abs(n);
    DivideBack(Abs(n), distance);
    assert n > 0.0 ==> m * n == distance;
    assert n < 0.0 ==> m * n == -distance;
    Quotient(distance, Abs(n));
  }

  lemma Quotient(x: real, d: real)
    requires x > 0.0 && d > 0.0
    ensures x / d > 0.0
  {
  }

  /** A point outside the box, straight away from the line through a and b. */
  lemma FarAway(a: Vec2, b: Vec2, p: Vec2, bx: Box) returns (q: Vec2)
    requires Turn(a, b, p) < 0.0
    ensures Turn(a, b, q) < 0.0 && !InBox(bx, q)
  {
    NoTurn(a, b, p);
    hide Turn;
    var (nx, ny) := (b.y - a.y, a.x - b.x);
    var m: real;
    if nx != 0.0 {
      m := Leaves(p.x, nx, bx.low.x, bx.high.x);
    } else {
      m := Leaves(p.y, ny, bx.low.y, bx.high.y);
    }
    q := Vec2(p.x + m * nx, p.y + m * ny);
    TurnStep(a, b, p, q, b.x - a.x, b.y - a.y, q.x - p.x, q.y - p.y);
    AwayScalars(b.x - a.x, b.y - a.y, q.x - p.x, q.y - p.y, m);
  }

  lemma NoTurn(a: Vec2, b: Vec2, p: Vec2)
    ensures a == b ==> Turn(a, b, p) == 0.0
  {
  }

  lemma AwayScalars(dx: real, dy: real, x: real, y: real, m: real)
    requires m >= 0.0 && x == m * dy && y == m * -dx
    ensures dx * y - dy * x <= 0.0
  {
    SquareNonNegative(dx);
    SquareNonNegative(dy);
    ProductNonNegative(m, dx * dx);
    ProductNonNegative(m, dy * dy);
    assert dx * y == -(m * (dx * dx)) && dy * x == m * (dy * dy);
  }

  lemma TurnNegative(a: Vec2, b: Vec2, p: Vec2, q: Vec2, t: real)
    requires 0.0 <= t <= 1.0 && Turn(a, b, p) < 0.0 && Turn(a, b, q) < 0.0
    ensures Turn(a, b, At(p, q, t)) < 0.0
  {
    TurnAt(a, b, p, q, t);
    var (x, y) := (-Turn(a, b, p), -Turn(a, b, q));
    hide Turn;
    ProductNonNegative(1.0 - t, x);
    ProductNonNegative(t, y);
    if t < 1.0 {
      SameSigns(1.0 - t, x, (1.0 - t) * x);
    }
    assert (1.0 - t) * (-x) == -((1.0 - t) * x) && t * (-y) == -(t * y);
  }

  lemma TurnNonNegative(a: Vec2, b: Vec2, p: Vec2, q: Vec2, t: real)
    requires 0.0 <= t <= 1.0 && Turn(a, b, p) >= 0.0 && Turn(a, b, q) >= 0.0
    ensures Turn(a, b, At(p, q, t)) >= 0.0
  {
    TurnAt(a, b, p, q, t);
    ProductNonNegative(1.0 - t, Turn(a, b, p));
    ProductNonNegative(t, Turn(a, b, q));
  }

  lemma NotMet(a: Vec2, b: Vec2, s: Side, p: Vec2, q: Vec2)
    requires Turn(a, b, p) < 0.0 && Turn(a, b, q) < 0.0 && Turn(a, b, s.previous) >= 0.0 && Turn(a, b, s.next) >= 0.0
    ensures !Meets(s, p, q)
  {
    hide Turn, At;
    if Meets(s, p, q) {
      var t, u :| 0.0 <= t <= 1.0 && 0.0 <= u <= 1.0 && At(p, q, t) == At(s.previous, s.next, u);
      TurnNegative(a, b, p, q, t);
      TurnNonNegative(a, b, s.previous, s.next, u);
    }
  }

  /** A point that a line separates from a loop is outside it: the loop is
      nowhere right of the line from a to b, and the point is. */
  lemma SeparatedIsOutside(polygon: seq<Vec2>, a: Vec2, b: Vec2, p: Vec2)
    requires Turn(a, b, p) < 0.0 && forall i :: 0 <= i < |polygon| ==> Turn(a, b, polygon[i]) >= 0.0
    ensures Crossings(Sides(polygon), p) % 2 == 0
  {
    hide Turn, Crossings, Straddling, InBox, Meets;
    var bx := SomeBox(polygon);
    var q := FarAway(a, b, p, bx);
    var sides := Sides(polygon);
    forall i | 0 <= i < |polygon|
      ensures !Meets(sides[i], p, q)
      ensures InBox(bx, sides[i].previous) && InBox(bx, sides[i].next)
    {
      NotMet(a, b, sides[i], p, q);
    }
    SameRegion(polygon, p, q);
    OutsideCrossings(bx, sides, q);
    StraddlingEven(polygon, q);
  }

  // ---------------------------------------------------------------- convex loops

  /** Any three vertices in their order turn left, or lie on a line: a convex
      polygon, run counterclockwise once. */
  ghost predicate Convex(polygon: seq<Vec2>) {
    forall i, j, k :: 0 <= i < j < k < |polygon| ==> Turn(polygon[i], polygon[j], polygon[k]) >= 0.0
  }

  /** The point is strictly left of every side. */
  ghost predicate StrictlyInside(polygon: seq<Vec2>, p: Vec2) {
    forall i :: 0 <= i < |polygon| ==> Turn(Sides(polygon)[i].previous, Sides(polygon)[i].next, p) > 0.0
  }

  /** x, y and z follow each other around the polygon. */
  predicate InTurn(x: nat, y: nat, z: nat) {
    x <= y <= z || y <= z <= x || z <= x <= y
  }

  lemma RepeatedTurn(a: Vec2, b: Vec2)
    ensures Turn(a, a, b) == 0.0 && Turn(a, b, a) == 0.0 && Turn(b, a, a) == 0.0
  {
  }

  lemma ConvexTurn(polygon: seq<Vec2>, x: nat, y: nat, z: nat)
    requires Convex(polygon) && x < |polygon| && y < |polygon| && z < |polygon| && InTurn(x, y, z)
    ensures Turn(polygon[x], polygon[y], polygon[z]) >= 0.0
  {
    var (a, b, c) := (polygon[x], polygon[y], polygon[z]);
    TurnReversed(a, b, c);
    TurnReversed(b, c, a);
    RepeatedTurn(a, b);
    RepeatedTurn(a, c);
    RepeatedTurn(b, a);
    hide Turn;
  }

  predicate Rising(s: Side, p: Vec2) {
    s.previous.y <= p.y < s.next.y
  }

  lemma LeftCrosses(s: Side, p: Vec2)
    requires Turn(s.previous, s.next, p) > 0.0
    ensures Crosses(s, p) <==> Rising(s, p)
  {
    if Rising(s, p) {
      RisingCrosses(s, p);
    } else if Straddles(s, p) {
      FallingCrosses(s, p);
    }
  }

  /** Two rising sides of a convex polygon, seen from a point inside: the line
      from the start of one to the end of the other has it on the left too. */
  lemma TwoRising(a: Vec2, b: Vec2, c: Vec2, d: Vec2, p: Vec2)
    requires a.y <= p.y < b.y && c.y <= p.y < d.y && Turn(a, b, p) > 0.0
    requires Turn(a, b, c) >= 0.0 && Turn(a, b, d) >= 0.0 && Turn(c, d, a) >= 0.0 && Turn(c, d, b) >= 0.0
    ensures Turn(a, d, p) > 0.0
  {
    hide Turn, At;
    var u := HitLevel(a, b, p.y);
    var v := HitLevel(c, d, p.y);
    var (m, n) := (At(a, b, u), At(c, d, v));
    LevelSide(a, b, u, p);
    TurnNonNegative(a, b, c, d, v);
    TurnNonNegative(c, d, a, b, u);
    LevelSide(a, b, u, n);
    LevelSide(c, d, v, m);
    assert m == n;
    OnBoth(a, b, c, d, u, v, p.y);
    var w := HitLevel(a, d, p.y);
    LevelSide(a, d, w, p);
    LevelSide(a, d, w, m);
  }

  lemma OnBoth(a: Vec2, b: Vec2, c: Vec2, d: Vec2, u: real, v: real, y: real)
    requires 0.0 <= u <= 1.0 && 0.0 <= v <= 1.0 && At(a, b, u) == At(c, d, v) && At(a, b, u).y == y && y < b.y
    requires Turn(c, d, a) >= 0.0 && Turn(c, d, b) >= 0.0
    ensures Turn(a, d, At(a, b, u)) == 0.0
  {
    hide Turn;
    TurnAt(c, d, a, b, u);
    TurnOnLine(c, d, v);
    BelowOne(a, b, u, y);
    ProductNonNegative(u, Turn(c, d, b));
    SignOfProduct(1.0 - u, Turn(c, d, a));
    assert Turn(c, d, a) == 0.0;
    TurnReversed(c, d, a);
    TurnReversed(d, a, c);
    TurnAt(a, d, c, d, v);
    RepeatedTurn(d, a);
    assert (1.0 - v) * 0.0 + v * 0.0 == 0.0;
  }

  lemma BelowOne(a: Vec2, b: Vec2, u: real, y: real)
    requires u <= 1.0 && At(a, b, u).y == y && y < b.y
    ensures u < 1.0
  {
  }

  /** A falling side with a point inside on its left, and the line from a to d
      with the side on its right: then the point is on its right too. */
  lemma FallingRight(a: Vec2, d: Vec2, e: Vec2, g: Vec2, p: Vec2)
    requires a.y <= p.y < d.y && g.y <= p.y < e.y
    requires Turn(a, d, e) <= 0.0 && Turn(a, d, g) <= 0.0 && Turn(e, g, p) > 0.0
    ensures Turn(a, d, p) < 0.0
  {
    hide Turn, At;
    TurnReversed(e, g, p);
    TurnReversed(a, d, e);
    TurnReversed(a, d, g);
    var u := HitLevel(g, e, p.y);
    var w := HitLevel(a, d, p.y);
    var m := At(g, e, u);
    LevelSide(g, e, u, p);
    TurnNonNegative(d, a, g, e, u);
    TurnReversed(a, d, m);
    LevelSide(a, d, w, m);
    LevelSide(a, d, w, p);
  }

  /** Between two rising sides no side falls with the point on its left. */
  lemma NoneFalls(a: Vec2, b: Vec2, c: Vec2, d: Vec2, e: Vec2, g: Vec2, p: Vec2)
    requires a.y <= p.y < b.y && c.y <= p.y < d.y && g.y <= p.y < e.y && Turn(a, b, p) > 0.0
    requires Turn(a, b, c) >= 0.0 && Turn(a, b, d) >= 0.0 && Turn(c, d, a) >= 0.0 && Turn(c, d, b) >= 0.0
    requires Turn(a, e, d) >= 0.0 && Turn(a, g, d) >= 0.0
    ensures Turn(e, g, p) <= 0.0
  {
    TwoRising(a, b, c, d, p);
    TurnReversed(a, e, d);
    TurnReversed(a, g, d);
    hide Turn;
    if Turn(e, g, p) > 0.0 {
      FallingRight(a, d, e, g, p);
    }
  }

  lemma {:induction false} FindFall(polygon: seq<Vec2>, p: Vec2, i: nat, m: nat) returns (k: nat)
    requires i <= m < |polygon| && polygon[i].y > p.y >= polygon[m].y
    ensures i < k <= m && polygon[k - 1].y > p.y >= polygon[k].y
    decreases m
  {
    if polygon[m - 1].y > p.y {
      k := m;
    } else {
      k := FindFall(polygon, p, i, m - 1);
    }
  }

  /** At most one side of a convex polygon rises past a point inside. */
  lemma OneRises(polygon: seq<Vec2>, p: Vec2, i: nat, j: nat)
    requires Convex(polygon) && StrictlyInside(polygon, p) && i < j < |polygon|
    requires Rising(Sides(polygon)[i], p)
    ensures !Rising(Sides(polygon)[j], p)
  {
    hide Turn, Convex, Sides, StrictlyInside;
    if Rising(Sides(polygon)[j], p) {
      var h := if i == 0 then |polygon| - 1 else i - 1;
      SideIs(polygon, i, h);
      SideIs(polygon, j, j - 1);
      var k := FindFall(polygon, p, i, j - 1);
      SideIs(polygon, k, k - 1);
      InsideTurn(polygon, p, i);
      InsideTurn(polygon, p, k);
      ConvexTurn(polygon, h, i, j - 1);
      ConvexTurn(polygon, h, i, j);
      ConvexTurn(polygon, j - 1, j, h);
      ConvexTurn(polygon, j - 1, j, i);
      ConvexTurn(polygon, h, k - 1, j);
      ConvexTurn(polygon, h, k, j);
      hide InTurn;
      NoneFalls(polygon[h], polygon[i], polygon[j - 1], polygon[j], polygon[k - 1], polygon[k], p);
    }
  }

  lemma SideIs(polygon: seq<Vec2>, i: nat, h: nat)
    requires i < |polygon| && h == if i == 0 then |polygon| - 1 else i - 1
    ensures Sides(polygon)[i] == Side(polygon[h], polygon[i])
  {
  }

  lemma InsideTurn(polygon: seq<Vec2>, p: Vec2, i: nat)
    requires StrictlyInside(polygon, p) && i < |polygon|
    ensures Turn(Sides(polygon)[i].previous, Sides(polygon)[i].next, p) > 0.0
  {
  }

  // ---------------------------------------------------------------- some side rises

  /** How far a vertex leans to the right, seen from p. */
  function Slope(p: Vec2, v: Vec2): real
    requires v.y != p.y
  {
    (v.x - p.x) / (v.y - p.y)
  }

  lemma SlopeScalars(x: real, y: real, x': real, y': real)
    requires (y > 0.0 && y' > 0.0) || (y < 0.0 && y' < 0.0)
    requires x * y' - y * x' > 0.0
    ensures x / y > x' / y'
  {
    var (s, s') := (x / y, x' / y');
    DivideBack(y, x);
    DivideBack(y', x');
    SameSigns(y, y', y * y');
    assert (y * s) * y' - y * (y' * s') == (y * y') * (s - s');
    SignOfProduct(y * y', s - s');
  }

  /** Along a side with p on its left, on one side of the horizontal through p,
      the slope falls. */
  lemma SlopeFalls(s: Side, p: Vec2)
    requires Turn(s.previous, s.next, p) > 0.0
    requires (s.previous.y > p.y && s.next.y > p.y) || (s.previous.y < p.y && s.next.y < p.y)
    ensures Slope(p, s.next) < Slope(p, s.previous)
  {
    var (a, b) := (s.previous, s.next);
    TurnReversed(a, b, p);
    TurnReversed(b, p, a);
    TurnFrom(p, a, b);
    hide Turn;
    SlopeScalars(a.x - p.x, a.y - p.y, b.x - p.x, b.y - p.y);
  }

  lemma TurnFrom(p: Vec2, a: Vec2, b: Vec2)
    ensures Turn(p, a, b) == (a.x - p.x) * (b.y - p.y) - (a.y - p.y) * (b.x - p.x)
  {
  }

  /** All vertices strictly above p, or all strictly below. */
  ghost predicate OneHalf(polygon: seq<Vec2>, p: Vec2) {
    || (forall i :: 0 <= i < |polygon| ==> polygon[i].y > p.y)
    || (forall i :: 0 <= i < |polygon| ==> polygon[i].y < p.y)
  }

  lemma {:induction false} SlopesFall(polygon: seq<Vec2>, p: Vec2, i: nat)
    requires StrictlyInside(polygon, p) && OneHalf(polygon, p) && i < |polygon|
    ensures Slope(p, polygon[i]) < Slope(p, polygon[|polygon| - 1])
    decreases i
  {
    hide Turn, Slope, Sides, StrictlyInside;
    SideIs(polygon, i, if i == 0 then |polygon| - 1 else i - 1);
    InsideTurn(polygon, p, i);
    SlopeFalls(Sides(polygon)[i], p);
    if i > 0 {
      SlopesFall(polygon, p, i - 1);
    }
  }

  /** A point inside has vertices on both sides of its horizontal. */
  lemma NotOneHalf(polygon: seq<Vec2>, p: Vec2)
    requires StrictlyInside(polygon, p) && |polygon| > 0
    ensures !OneHalf(polygon, p)
  {
    if OneHalf(polygon, p) {
      SlopesFall(polygon, p, |polygon| - 1);
    }
  }

  /** The side entering a vertex on the height of p and the one leaving it do
      not both come from below. */
  lemma LevelVertex(a: Vec2, b: Vec2, c: Vec2, p: Vec2)
    requires a.y <= p.y && b.y == p.y && c.y <= p.y && Turn(a, b, p) > 0.0
    ensures Turn(b, c, p) <= 0.0
  {
    TurnReversed(a, b, p);
    TurnReversed(b, p, a);
    TurnReversed(b, c, p);
    TurnReversed(c, p, b);
    TurnFrom(p, a, b);
    TurnFrom(p, b, c);
    hide Turn;
    var (x, y, z) := (b.x - p.x, a.y - p.y, c.y - p.y);
    LevelVertexScalars(a.x - p.x, y, x, b.y - p.y, c.x - p.x, z);
  }

  lemma LevelVertexScalars(ax: real, ay: real, bx: real, y: real, cx: real, cy: real)
    requires ay <= 0.0 && y == 0.0 && cy <= 0.0 && ax * y - ay * bx > 0.0
    ensures bx * cy - y * cx <= 0.0
  {
    assert ax * y == 0.0 && y * cx == 0.0;
    if bx <= 0.0 {
      ProductNonNegative(-ay, -bx);
      assert (-ay) * (-bx) == ay * bx;
    }
    ProductNonNegative(Abs(bx), -cy);
  }

  /** Without a rising side, what is above p stays above p backwards. */
  lemma {:induction false} AboveBackwards(polygon: seq<Vec2>, p: Vec2, i: nat)
    requires i < |polygon| && forall k :: 0 <= k < |polygon| ==> !Rising(Sides(polygon)[k], p)
    ensures polygon[i].y > p.y ==> polygon[|polygon| - 1].y > p.y
    decreases i
  {
    hide Sides;
    SideIs(polygon, i, if i == 0 then |polygon| - 1 else i - 1);
    if i > 0 {
      AboveBackwards(polygon, p, i - 1);
    }
  }

  lemma {:induction false} AllAbove(polygon: seq<Vec2>, p: Vec2, i: nat)
    requires i < |polygon| && polygon[|polygon| - 1].y > p.y && forall k :: 0 <= k < |polygon| ==> !Rising(Sides(polygon)[k], p)
    ensures polygon[i].y > p.y
    decreases |polygon| - i
  {
    hide Sides;
    if i < |polygon| - 1 {
      AllAbove(polygon, p, i + 1);
      SideIs(polygon, i + 1, i);
    }
  }

  lemma StrictlyBelow(polygon: seq<Vec2>, p: Vec2, i: nat)
    requires StrictlyInside(polygon, p) && i < |polygon| && forall k :: 0 <= k < |polygon| ==> polygon[k].y <= p.y
    ensures polygon[i].y < p.y
  {
    hide Turn, Sides, StrictlyInside;
    var (h, j) := (if i == 0 then |polygon| - 1 else i - 1, if i == |polygon| - 1 then 0 else i + 1);
    SideIs(polygon, i, h);
    SideIs(polygon, j, i);
    InsideTurn(polygon, p, i);
    InsideTurn(polygon, p, j);
    if polygon[i].y == p.y {
      LevelVertex(polygon[h], polygon[i], polygon[j], p);
    }
  }

  lemma SomeRises(polygon: seq<Vec2>, p: Vec2) returns (i: nat)
    requires StrictlyInside(polygon, p) && |polygon| > 0
    ensures i < |polygon| && Rising(Sides(polygon)[i], p)
  {
    i := 0;
    if k :| 0 <= k < |polygon| && Rising(Sides(polygon)[k], p) {
      i := k;
    } else {
      NotOneHalf(polygon, p);
      var last := |polygon| - 1;
      hide Sides, StrictlyInside;
      if polygon[last].y > p.y {
        forall k | 0 <= k < |polygon|
          ensures polygon[k].y > p.y
        {
          AllAbove(polygon, p, k);
        }
      } else {
        forall k | 0 <= k < |polygon|
          ensures polygon[k].y <= p.y
        {
          AboveBackwards(polygon, p, k);
        }
        forall k | 0 <= k < |polygon|
          ensures polygon[k].y < p.y
        {
          StrictlyBelow(polygon, p, k);
        }
      }
      assert false;
    }
  }

  lemma {:induction false} OneCrossing(sides: seq<Side>, p: Vec2, i: nat)
    requires i < |sides| && forall k :: 0 <= k < |sides| ==> (Crosses(sides[k], p) <==> k == i)
    ensures Crossings(sides, p) == 1
    decreases |sides|
  {
    hide Crosses;
    var n := |sides| - 1;
    if i == n {
      NoCrossing(sides[..n], p);
    } else {
      OneCrossing(sides[..n], p, i);
    }
  }

  lemma {:induction false} NoCrossing(sides: seq<Side>, p: Vec2)
    requires forall k :: 0 <= k < |sides| ==> !Crosses(sides[k], p)
    ensures Crossings(sides, p) == 0
    decreases |sides|
  {
    hide Crosses;
    if sides != [] {
      NoCrossing(sides[..|sides| - 1], p);
    }
  }

  /** A point strictly inside a convex polygon crosses it once. */
  lemma InsideCrossesOnce(polygon: seq<Vec2>, p: Vec2)
    requires |polygon| > 0 && Convex(polygon) && StrictlyInside(polygon, p)
    ensures Crossings(Sides(polygon), p) == 1
  {
    hide Turn, Crosses, Crossings, Convex, StrictlyInside, Sides, Rising;
    var i := SomeRises(polygon, p);
    forall k | 0 <= k < |polygon|
      ensures Crosses(Sides(polygon)[k], p) <==> k == i
    {
      InsideTurn(polygon, p, k);
      LeftCrosses(Sides(polygon)[k], p);
      if k < i {
        if Rising(Sides(polygon)[k], p) {
          OneRises(polygon, p, k, i);
        }
      } else if k > i {
        OneRises(polygon, p, i, k);
      }
    }
    OneCrossing(Sides(polygon), p, i);
  }

  /** Every point strictly inside a convex loop is recognised, whichever way the
      loop runs and whatever the tolerance. */
  lemma InsideIsWithin(hypot: (real, real) -> real, polygon: seq<Vec2>, p: Vec2, tolerance: real)
    requires |polygon| > 0
    requires (Convex(polygon) && StrictlyInside(polygon, p)) || (Convex(Backward(polygon)) && StrictlyInside(Backward(polygon), p))
    ensures Within(hypot, polygon, p, tolerance)
  {
    hide Convex, StrictlyInside, Crossings, NearAny, Sides;
    if Convex(polygon) && StrictlyInside(polygon, p) {
      InsideCrossesOnce(polygon, p);
    } else {
      InsideCrossesOnce(Backward(polygon), p);
      ReversalInvariant(hypot, polygon, p, tolerance);
    }
  }

  /** A point strictly right of some side of a convex loop is within it only if
      it is near. */
  lemma OutsideIsNotWithin(hypot: (real, real) -> real, polygon: seq<Vec2>, p: Vec2, tolerance: real, i: nat)
    requires Convex(polygon) && i < |polygon| && Turn(Sides(polygon)[i].previous, Sides(polygon)[i].next, p) < 0.0
    ensures Within(hypot, polygon, p, tolerance) <==> NearAny(hypot, Sides(polygon), p, tolerance)
  {
    hide Turn, Convex, Sides, Crossings, NearAny;
    var h := if i == 0 then |polygon| - 1 else i - 1;
    SideIs(polygon, i, h);
    forall k | 0 <= k < |polygon|
      ensures Turn(polygon[h], polygon[i], polygon[k]) >= 0.0
    {
      ConvexTurn(polygon, h, i, k);
    }
    SeparatedIsOutside(polygon, polygon[h], polygon[i], p);
  }

  // ---------------------------------------------------------------- near a side

  /** Squared length of w - u d, for w.w, w.d and d.d. */
  function Spread(w: real, along: real, length: real, u: real): real {
    w - 2.0 * (u * along) + u * u * length
  }

  /** The clamped projection is the nearest point. */
  lemma NearestFraction(w: real, along: real, length: real, u: real)
    requires length > 0.0 && 0.0 <= u <= 1.0
    ensures Spread(w, along, length, Clamp(along / length)) <= Spread(w, along, length, u)
  {
    var r := along / length;
    var t := Clamp(r);
    DivideBack(length, along);
    SpreadGap(w, along, length, u, t);
    hide Spread;
    if r < 0.0 {
      SignOfProduct(length, r);
      ProductNonNegative(u, length);
      ProductNonNegative(u, u * length - 2.0 * along);
    } else if r > 1.0 {
      BeyondEnd(along, length, u);
    } else {
      WithinEnds(along, length, u, t);
    }
  }

  lemma SpreadGap(w: real, along: real, length: real, u: real, t: real)
    ensures Spread(w, along, length, u) - Spread(w, along, length, t) == (u - t) * ((u + t) * length - 2.0 * along)
  {
    assert (u - t) * ((u + t) * length) == u * u * length - t * t * length;
    assert (u - t) * (2.0 * along) == 2.0 * (u * along) - 2.0 * (t * along);
  }

  lemma BeyondEnd(along: real, length: real, u: real)
    requires length > 0.0 && u <= 1.0 && along / length > 1.0
    ensures (u - 1.0) * ((u + 1.0) * length - 2.0 * along) >= 0.0
  {
    var r := along / length;
    DivideBack(length, along);
    SignOfProduct(length, r - 1.0);
    ProductNonNegative(1.0 - u, length);
    ProductNonNegative(1.0 - u, 2.0 * along - (u + 1.0) * length);
    assert (u - 1.0) * ((u + 1.0) * length - 2.0 * along) == (1.0 - u) * (2.0 * along - (u + 1.0) * length);
  }

  lemma WithinEnds(along: real, length: real, u: real, t: real)
    requires length > 0.0 && along == length * t
    ensures (u - t) * ((u + t) * length - 2.0 * along) >= 0.0
  {
    SquareNonNegative(u - t);
    ProductNonNegative((u - t) * (u - t), length);
    assert (u + t) * length - 2.0 * along == (u - t) * length;
    assert (u - t) * ((u - t) * length) == (u - t) * (u - t) * length;
  }

  /** From the point at fraction u of the side to p. */
  function From(s: Side, p: Vec2, u: real): Vec2 {
    var q := At(s.previous, s.next, u);
    Vec2(p.x - q.x, p.y - q.y)
  }

  function SquaredLength(v: Vec2): real {
    v.x * v.x + v.y * v.y
  }

  lemma WeighedIs(a: real, b: real, u: real, d: real)
    requires d == b - a
    ensures Weighed(a, b, u) == a + u * d
  {
  }

  lemma FromIs(s: Side, p: Vec2, u: real)
    ensures From(s, p, u) == Vec2(p.x - s.previous.x - u * s.Dx(), p.y - s.previous.y - u * s.Dy())
  {
    var (dx, dy) := (s.Dx(), s.Dy());
    hide Weighed;
    WeighedIs(s.previous.x, s.next.x, u, dx);
    WeighedIs(s.previous.y, s.next.y, u, dy);
    hide Side.Dx, Side.Dy;
  }

  lemma SpreadIs(s: Side, p: Vec2, u: real)
    ensures SquaredLength(From(s, p, u)) == Spread(SquaredLength(From(s, p, 0.0)), Along(s, p), s.LengthSquared(), u)
  {
    hide From, Side.Dx, Side.Dy;
    FromIs(s, p, u);
    FromIs(s, p, 0.0);
    SpreadScalars(p.x - s.previous.x, p.y - s.previous.y, s.Dx(), s.Dy(), u);
  }

  lemma SpreadScalars(x: real, y: real, dx: real, dy: real, u: real)
    ensures (x - u * dx) * (x - u * dx) + (y - u * dy) * (y - u * dy)
         == (x * x + y * y) - 2.0 * (u * (x * dx + y * dy)) + u * u * (dx * dx + dy * dy)
  {
  }

  lemma GapIsFrom(s: Side, p: Vec2)
    ensures Gap(s, p) == From(s, p, Foot(s, p))
  {
    hide Foot, From;
    var t := Foot(s, p);
    FromIs(s, p, t);
    assert Gap(s, p).x == p.x - s.previous.x - t * s.Dx();
    assert Gap(s, p).y == p.y - s.previous.y - t * s.Dy();
  }

  lemma GapShortest(s: Side, p: Vec2, u: real)
    requires 0.0 <= u <= 1.0
    ensures SquaredLength(Gap(s, p)) <= SquaredLength(From(s, p, u))
  {
    GapIsFrom(s, p);
    hide Gap, SquaredLength, Along, From, Spread, Clamp;
    SpreadIs(s, p, u);
    SpreadIs(s, p, Foot(s, p));
    if s.LengthSquared() > 0.0 {
      NearestFraction(SquaredLength(From(s, p, 0.0)), Along(s, p), s.LengthSquared(), u);
    } else {
      LengthZero(s);
      FlatFrom(s, p, u);
      FlatFrom(s, p, Foot(s, p));
    }
  }

  lemma FlatFrom(s: Side, p: Vec2, u: real)
    requires s.Dx() == 0.0 && s.Dy() == 0.0
    ensures From(s, p, u) == From(s, p, 0.0)
  {
  }

  lemma HypotOrder(hypot: (real, real) -> real, v: Vec2, w: Vec2)
    requires IsHypot(hypot) && SquaredLength(v) <= SquaredLength(w)
    ensures hypot(v.x, v.y) <= hypot(w.x, w.y)
  {
    if hypot(v.x, v.y) > hypot(w.x, w.y) {
      SquareStrict(hypot(w.x, w.y), hypot(v.x, v.y));
    }
  }

  /** A side is near exactly when some point of it is within the tolerance. */
  lemma NearExactly(hypot: (real, real) -> real, s: Side, p: Vec2, tolerance: real)
    requires IsHypot(hypot)
    ensures Near(hypot, s, p, tolerance) <==>
            exists u :: 0.0 <= u <= 1.0 && hypot(From(s, p, u).x, From(s, p, u).y) <= tolerance
  {
    hide Foot, Gap, From, IsHypot, SquaredLength;
    GapIsFrom(s, p);
    if u :| 0.0 <= u <= 1.0 && hypot(From(s, p, u).x, From(s, p, u).y) <= tolerance {
      GapShortest(s, p, u);
      HypotOrder(hypot, Gap(s, p), From(s, p, u));
    }
  }
}
