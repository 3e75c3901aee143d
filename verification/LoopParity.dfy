/** Crossing parity along a segment: it stays the same until a side is passed,
    and changes with every side that is. */
module LoopParity {
  import opened RealVectors
  import opened LoopTest
  import opened LoopReach

  /** Twice the signed area of a triangle: positive when c is left of the line
      from a to b. */
  function Turn(a: Vec2, b: Vec2, c: Vec2): real {
    (b.x - a.x) * (c.y - a.y) - (b.y - a.y) * (c.x - a.x)
  }

  /** The point at fraction u from a to b. */
  function At(a: Vec2, b: Vec2, u: real): Vec2 {
    Vec2(Weighed(a.x, b.x, u), Weighed(a.y, b.y, u))
  }

  function Weighed(x: real, y: real, u: real): real {
    x + u * (y - x)
  }

  /** The side and the segment from p to q have a point in common. */
  ghost predicate Meets(s: Side, p: Vec2, q: Vec2) {
    exists t, u :: 0.0 <= t <= 1.0 && 0.0 <= u <= 1.0 && At(p, q, t) == At(s.previous, s.next, u)
  }

  predicate Opposed(x: real, y: real) {
    x < 0.0 < y || y < 0.0 < x
  }

  /** The segment from p to q goes through the side: each has its ends strictly
      on different sides of the other. */
  predicate Passes(s: Side, p: Vec2, q: Vec2) {
    Opposed(Turn(s.previous, s.next, p), Turn(s.previous, s.next, q)) && Opposed(Turn(p, q, s.previous), Turn(p, q, s.next))
  }

  // ---------------------------------------------------------------- signed areas

  lemma TurnAt(p: Vec2, q: Vec2, a: Vec2, b: Vec2, u: real)
    ensures Turn(p, q, At(a, b, u)) == (1.0 - u) * Turn(p, q, a) + u * Turn(p, q, b)
  {
    TurnAtScalars(q.x - p.x, q.y - p.y, a.x - p.x, a.y - p.y, b.x - a.x, b.y - a.y, u);
    assert b.x - p.x == (a.x - p.x) + (b.x - a.x) && b.y - p.y == (a.y - p.y) + (b.y - a.y);
  }

  lemma TurnAtScalars(dx: real, dy: real, x: real, y: real, ex: real, ey: real, u: real)
    ensures dx * (y + u * ey) - dy * (x + u * ex) == (1.0 - u) * (dx * y - dy * x) + u * (dx * (y + ey) - dy * (x + ex))
  {
  }

  /** The order of the two segments does not matter but for the sign. */
  lemma TurnExchange(a: Vec2, b: Vec2, p: Vec2, q: Vec2)
    ensures Turn(p, q, a) - Turn(p, q, b) == Turn(a, b, q) - Turn(a, b, p)
  {
    var (ex, ey, fx, fy) := (b.x - a.x, b.y - a.y, q.x - p.x, q.y - p.y);
    TurnStep(p, q, a, b, fx, fy, ex, ey);
    TurnStep(a, b, p, q, ex, ey, fx, fy);
  }

  lemma TurnStep(p: Vec2, q: Vec2, a: Vec2, b: Vec2, fx: real, fy: real, ex: real, ey: real)
    requires fx == q.x - p.x && fy == q.y - p.y && ex == b.x - a.x && ey == b.y - a.y
    ensures Turn(p, q, b) - Turn(p, q, a) == fx * ey - fy * ex
  {
    assert fx * (b.y - p.y) - fx * (a.y - p.y) == fx * ey;
    assert fy * (b.x - p.x) - fy * (a.x - p.x) == fy * ex;
  }

  lemma TurnReversed(a: Vec2, b: Vec2, c: Vec2)
    ensures Turn(b, a, c) == -Turn(a, b, c)
    ensures Turn(a, c, b) == -Turn(a, b, c)
    ensures Turn(a, b, c) == Turn(b, c, a)
  {
    var (ux, uy, vx, vy) := (b.x - a.x, b.y - a.y, c.x - a.x, c.y - a.y);
    TurnScalars(ux, uy, vx, vy);
    assert c.x - b.x == vx - ux && c.y - b.y == vy - uy && a.x - b.x == -ux && a.y - b.y == -uy;
  }

  lemma TurnScalars(ux: real, uy: real, vx: real, vy: real)
    ensures (-ux) * (vy - uy) - (-uy) * (vx - ux) == -(ux * vy - uy * vx)
    ensures (vx - ux) * (-uy) - (vy - uy) * (-ux) == ux * vy - uy * vx
  {
  }

  /** On the height of p, a side is right of p by its signed area. */
  lemma LevelTurn(a: Vec2, b: Vec2, u: real, p: Vec2)
    requires At(a, b, u).y == p.y
    ensures Turn(a, b, p) == (b.y - a.y) * (At(a, b, u).x - p.x)
  {
    LevelScalars(b.x - a.x, b.y - a.y, u, p.x - a.x, p.y - a.y);
    assert At(a, b, u).x - p.x == u * (b.x - a.x) - (p.x - a.x);
  }

  lemma LevelScalars(dx: real, dy: real, u: real, x: real, y: real)
    requires y == u * dy
    ensures dx * y - dy * x == dy * (u * dx - x)
  {
  }

  /** A point on the height of either end of a rising segment is right of that
      end exactly when it is right of the segment. */
  lemma EndTurn(p: Vec2, q: Vec2, v: Vec2)
    requires p.y < q.y && (v.y == p.y || v.y == q.y)
    ensures Turn(p, q, v) < 0.0 <==> (if v.y == p.y then v.x > p.x else v.x > q.x)
  {
    var (dx, dy, x) := (q.x - p.x, q.y - p.y, v.x - p.x);
    if v.y == p.y {
      assert Turn(p, q, v) == -(dy * x);
      SignOfProduct(dy, x);
    } else {
      assert Turn(p, q, v) == dy * (dx - x);
      SignOfProduct(dy, dx - x);
    }
  }

  lemma SignOfProduct(d: real, x: real)
    requires d > 0.0
    ensures (d * x > 0.0 <==> x > 0.0) && (d * x < 0.0 <==> x < 0.0)
  {
    if x > 0.0 {
      SameSigns(d, x, d * x);
    } else if x < 0.0 {
      SameSigns(d, -x, d * (-x));
    }
  }

  lemma HitLevel(a: Vec2, b: Vec2, y: real) returns (u: real)
    requires a.y < b.y && a.y <= y <= b.y
    ensures 0.0 <= u <= 1.0 && At(a, b, u).y == y
  {
    var d := b.y - a.y;
    u := (y - a.y) / d;
    DivideBack(d, y - a.y);
    Fraction(y - a.y, d);
  }

  lemma Fraction(x: real, d: real)
    requires 0.0 <= x <= d && d > 0.0
    ensures 0.0 <= x / d <= 1.0
  {
  }

  /** A rising side crosses the ray from p when p is left of it. */
  lemma RisingCrosses(s: Side, p: Vec2)
    requires s.previous.y <= p.y < s.next.y
    ensures Crosses(s, p) <==> Turn(s.previous, s.next, p) > 0.0
  {
    var (dx, dy, x, y) := (s.Dx(), s.Dy(), p.x - s.previous.x, p.y - s.previous.y);
    RisingScalars(dx, dy, x, y);
  }

  lemma RisingScalars(dx: real, dy: real, x: real, y: real)
    requires dy > 0.0
    ensures x < Shift(dx, y, dy) <==> dx * y - dy * x > 0.0
  {
    var m := dx * y / dy;
    DivideBack(dy, dx * y);
    assert dx * y - dy * x == dy * (m - x);
    SignOfProduct(dy, m - x);
  }

  /** A falling side crosses it when p is right of it. */
  lemma FallingCrosses(s: Side, p: Vec2)
    requires s.next.y <= p.y < s.previous.y
    ensures Crosses(s, p) <==> Turn(s.previous, s.next, p) < 0.0
  {
    ReversedCrosses(s, p);
    RisingCrosses(s.Reversed(), p);
    TurnReversed(s.previous, s.next, p);
  }

  // ---------------------------------------------------------------- one side

  /** Between the heights of p and q, and right of the segment. */
  predicate RightOf(p: Vec2, q: Vec2, v: Vec2) {
    p.y < v.y <= q.y && Turn(p, q, v) < 0.0
  }

  /** The lowest point of a rising side between the heights of p and q. */
  lemma LowEnd(a: Vec2, b: Vec2, p: Vec2, q: Vec2) returns (u: real)
    requires a.y < b.y && p.y < q.y && b.y > p.y && a.y <= q.y
    ensures 0.0 <= u <= 1.0 && p.y <= At(a, b, u).y <= q.y
    ensures (Crosses(Side(a, b), p) != RightOf(p, q, a)) <==> Turn(p, q, At(a, b, u)) < 0.0
  {
    if a.y > p.y {
      u := 0.0;
      assert At(a, b, u) == a;
      hide Turn, MeetsAt, At;
    } else {
      u := HitLevel(a, b, p.y);
      var v := At(a, b, u);
      RisingCrosses(Side(a, b), p);
      LevelSide(a, b, u, p);
      EndTurn(p, q, v);
      hide Turn, Crosses, At;
    }
  }

  /** The highest. */
  lemma HighEnd(a: Vec2, b: Vec2, p: Vec2, q: Vec2) returns (u: real)
    requires a.y < b.y && p.y < q.y && b.y > p.y && a.y <= q.y
    ensures 0.0 <= u <= 1.0 && p.y <= At(a, b, u).y <= q.y
    ensures (Crosses(Side(a, b), q) != RightOf(p, q, b)) <==> Turn(p, q, At(a, b, u)) < 0.0
  {
    if b.y <= q.y {
      u := 1.0;
      assert At(a, b, u) == b;
      hide Turn, MeetsAt, At;
    } else {
      u := HitLevel(a, b, q.y);
      var v := At(a, b, u);
      RisingCrosses(Side(a, b), q);
      LevelSide(a, b, u, q);
      EndTurn(p, q, v);
      hide Turn, Crosses, At;
    }
  }

  /** A point on the line through p and q, between their heights. */
  lemma OnSegment(p: Vec2, q: Vec2, v: Vec2) returns (t: real)
    requires p.y < q.y && p.y <= v.y <= q.y && Turn(p, q, v) == 0.0
    ensures 0.0 <= t <= 1.0 && At(p, q, t) == v
  {
    t := HitLevel(p, q, v.y);
    var w := At(p, q, t);
    TurnOnLine(p, q, t);
    SameHeight(p, q, v, w);
  }

  lemma TurnOnLine(p: Vec2, q: Vec2, t: real)
    ensures Turn(p, q, At(p, q, t)) == 0.0
  {
    TurnAt(p, q, p, q, t);
    assert Turn(p, q, p) == 0.0 && Turn(p, q, q) == 0.0;
  }

  lemma SameHeight(p: Vec2, q: Vec2, v: Vec2, w: Vec2)
    requires p.y < q.y && v.y == w.y && Turn(p, q, v) == Turn(p, q, w)
    ensures v == w
  {
    var d := q.y - p.y;
    assert d * (v.x - p.x) == d * (w.x - p.x);
    CancelFactor(d, v.x - p.x, w.x - p.x);
  }

  /** Where a linear quantity changes its sign it vanishes. */
  lemma ZeroBetween(x: real, y: real) returns (w: real)
    requires (x < 0.0) != (y < 0.0)
    ensures 0.0 <= w <= 1.0 && (1.0 - w) * x + w * y == 0.0
  {
    var d := x - y;
    w := x / d;
    DivideBack(d, x);
    if d < 0.0 {
      assert w == (-x) / (-d);
      Fraction(-x, -d);
    } else {
      Fraction(x, d);
    }
    assert (1.0 - w) * x + w * y == x - d * w;
  }

  lemma WeighedAt(a: Vec2, b: Vec2, u: real, v: real, w: real)
    ensures At(a, b, Weighed(u, v, w)) == At(At(a, b, u), At(a, b, v), w)
  {
    hide Weighed;
    WeighedTwice(a.x, b.x, u, v, w);
    WeighedTwice(a.y, b.y, u, v, w);
  }

  lemma WeighedTwice(a: real, b: real, u: real, v: real, w: real)
    ensures Weighed(a, b, Weighed(u, v, w)) == Weighed(Weighed(a, b, u), Weighed(a, b, v), w)
  {
    var d := b - a;
    assert a + v * d - (a + u * d) == (v - u) * d;
    assert w * ((v - u) * d) == (w * (v - u)) * d;
    assert (u + w * (v - u)) * d == u * d + (w * (v - u)) * d;
  }

  lemma WeighedRange(u: real, v: real, w: real, low: real, high: real)
    requires 0.0 <= w <= 1.0 && low <= u <= high && low <= v <= high
    ensures low <= Weighed(u, v, w) <= high
  {
    Between(u, v, w, low, high);
  }

  /** Two points of a side between the heights of p and q, on different sides
      of the segment: the side meets it. */
  lemma ChangeMeets(a: Vec2, b: Vec2, p: Vec2, q: Vec2, u: real, v: real)
    requires p.y < q.y && 0.0 <= u <= 1.0 && 0.0 <= v <= 1.0
    requires p.y <= At(a, b, u).y <= q.y && p.y <= At(a, b, v).y <= q.y
    requires (Turn(p, q, At(a, b, u)) < 0.0) != (Turn(p, q, At(a, b, v)) < 0.0)
    ensures Meets(Side(a, b), p, q)
  {
    hide Turn, Weighed;
    var (l, h) := (At(a, b, u), At(a, b, v));
    var w := ZeroBetween(Turn(p, q, l), Turn(p, q, h));
    var x := Weighed(u, v, w);
    TurnAt(p, q, l, h, w);
    WeighedAt(a, b, u, v, w);
    WeighedRange(u, v, w, 0.0, 1.0);
    WeighedRange(l.y, h.y, w, p.y, q.y);
    var m := At(a, b, x);
    hide At;
    var t := OnSegment(p, q, m);
    assert At(p, q, t) == At(Side(a, b).previous, Side(a, b).next, x);
  }

  /** A segment passed sees the ends of both on matching sides. */
  lemma PassesMatch(s: Side, p: Vec2, q: Vec2)
    requires Passes(s, p, q)
    ensures Turn(p, q, s.previous) < 0.0 <==> Turn(s.previous, s.next, p) > 0.0
    ensures Turn(p, q, s.next) < 0.0 <==> Turn(s.previous, s.next, q) > 0.0
    ensures (Turn(p, q, s.previous) < 0.0) != (Turn(p, q, s.next) < 0.0)
  {
    TurnExchange(s.previous, s.next, p, q);
    hide Turn;
  }

  /** Whether the side is crossed from p and not from q, or from q and not from
      p: whether its ends lie on different sides of the band's right part, turned
      round when the segment passes the side. */
  ghost predicate Balanced(s: Side, p: Vec2, q: Vec2) {
    ((Crosses(s, p) != Crosses(s, q)) != (RightOf(p, q, s.previous) != RightOf(p, q, s.next))) <==> Passes(s, p, q)
  }

  lemma RisingBalanced(s: Side, p: Vec2, q: Vec2)
    requires s.previous.y < s.next.y && p.y < q.y && (!Meets(s, p, q) || Passes(s, p, q))
    ensures Balanced(s, p, q)
  {
    var (a, b) := (s.previous, s.next);
    assert Side(a, b) == s;
    if b.y > p.y && a.y <= q.y {
      if Passes(s, p, q) {
        PassesMatch(s, p, q);
        if a.y <= p.y {
          RisingCrosses(s, p);
        }
        if b.y > q.y {
          RisingCrosses(s, q);
        }
        hide Turn, MeetsAt;
      } else {
        var u := LowEnd(a, b, p, q);
        var v := HighEnd(a, b, p, q);
        if (Turn(p, q, At(a, b, u)) < 0.0) != (Turn(p, q, At(a, b, v)) < 0.0) {
          ChangeMeets(a, b, p, q, u, v);
        }
        hide Turn, Crosses, RightOf, Passes, Meets, At;
      }
    } else {
      OutOfBand(s, p, q);
    }
  }

  lemma PassScalars(ex: real, ey: real, fx: real, fy: real, px: real, py: real)
    ensures (ex * py - ey * px) * (py + fy) - (ex * (py + fy) - ey * (px + fx)) * py == -ey * (fy * px - fx * py)
  {
  }

  /** Where the two lines meet, by the signed areas on either. */
  lemma PassHeight(a: Vec2, b: Vec2, p: Vec2, q: Vec2)
    ensures Turn(a, b, p) * (q.y - a.y) - Turn(a, b, q) * (p.y - a.y) == -Turn(p, q, a) * (b.y - a.y)
  {
    var (ex, ey, fx, fy, px, py) := (b.x - a.x, b.y - a.y, q.x - p.x, q.y - p.y, p.x - a.x, p.y - a.y);
    PassScalars(ex, ey, fx, fy, px, py);
    assert q.y - a.y == py + fy && q.x - a.x == px + fx;
    assert Turn(p, q, a) == fy * px - fx * py by {
      assert a.y - p.y == -py && a.x - p.x == -px;
    }
  }

  lemma BelowScalars(tp: real, tq: real, ta: real, tb: real, p: real, q: real, a: real, b: real)
    requires tp > 0.0 > tq && ta < 0.0 < tb && tp - tq == tb - ta
    requires tp * (q - a) - tq * (p - a) == -ta * (b - a)
    requires p <= q && ((a <= p && b <= p) || (a > q && b > q))
    ensures a == b == p == q
  {
    assert tp * (q - p) + (-ta) * (p - b) + tb * (p - a) == 0.0 by {
      assert tp * (q - a) == tp * (q - p) + tp * (p - a);
      assert -ta * (b - a) == (-ta) * (p - a) - (-ta) * (p - b);
      assert (tp - tq) * (p - a) == (tb - ta) * (p - a);
    }
    if a <= p && b <= p {
      ZeroProduct(tp, q - p);
      ZeroProduct(-ta, p - b);
      ZeroProduct(tb, p - a);
    } else {
      AboveScalars(tp, tq, ta, tb, p, q, a, b);
    }
  }

  lemma ZeroProduct(d: real, x: real)
    requires d > 0.0 && x >= 0.0
    ensures d * x >= 0.0 && (d * x == 0.0 <==> x == 0.0)
  {
    SignOfProduct(d, x);
  }

  lemma AboveScalars(tp: real, tq: real, ta: real, tb: real, p: real, q: real, a: real, b: real)
    requires tp > 0.0 > tq && ta < 0.0 < tb && tp - tq == tb - ta && p <= q && a > q && b > q
    ensures tp * (q - p) + (-ta) * (p - b) + tb * (p - a) < 0.0
  {
    SameSigns(-ta, b - q, (-ta) * (b - q));
    SameSigns(tb, a - q, tb * (a - q));
    ProductNonNegative(-tq, q - p);
    assert (-ta) * (p - b) == -((-ta) * (b - q)) - (-ta) * (q - p);
    assert tb * (p - a) == -(tb * (a - q)) - tb * (q - p);
    assert (-ta) * (q - p) + tb * (q - p) == (tp - tq) * (q - p);
    assert (tp - tq) * (q - p) == tp * (q - p) + (-tq) * (q - p);
  }

  /** Segments at different heights do not pass each other. */
  lemma OutOfBand(s: Side, p: Vec2, q: Vec2)
    requires p.y <= q.y && ((s.previous.y <= p.y && s.next.y <= p.y) || (s.previous.y > q.y && s.next.y > q.y))
    ensures !Passes(s, p, q)
  {
    var (a, b) := (s.previous, s.next);
    if Passes(s, p, q) {
      var (tp, tq, ta, tb) := (Turn(a, b, p), Turn(a, b, q), Turn(p, q, a), Turn(p, q, b));
      PassHeight(a, b, p, q);
      TurnExchange(a, b, p, q);
      LevelSegment(p, q, a);
      hide Turn;
      if tp > 0.0 {
        BelowScalars(tp, tq, ta, tb, p.y, q.y, a.y, b.y);
      } else {
        NegatedHeights(tp, tq, ta, p.y, q.y, a.y, b.y);
        BelowScalars(-tp, -tq, -ta, -tb, p.y, q.y, a.y, b.y);
      }
    }
  }

  lemma NegatedHeights(tp: real, tq: real, ta: real, p: real, q: real, a: real, b: real)
    requires tp * (q - a) - tq * (p - a) == -ta * (b - a)
    ensures (-tp) * (q - a) - (-tq) * (p - a) == -(-ta) * (b - a)
  {
  }

  lemma LevelSegment(p: Vec2, q: Vec2, v: Vec2)
    ensures p.y == q.y == v.y ==> Turn(p, q, v) == 0.0
  {
  }

  /** A level side. */
  lemma LevelBalanced(s: Side, p: Vec2, q: Vec2)
    requires s.previous.y == s.next.y && p.y < q.y && (!Meets(s, p, q) || Passes(s, p, q))
    ensures Balanced(s, p, q)
  {
    var (a, b) := (s.previous, s.next);
    assert Side(a, b) == s;
    if a.y <= p.y || a.y > q.y {
      OutOfBand(s, p, q);
    } else if !Passes(s, p, q) && RightOf(p, q, a) != RightOf(p, q, b) {
      assert At(a, b, 0.0) == a && At(a, b, 1.0) == b;
      ChangeMeets(a, b, p, q, 0.0, 1.0);
    }
    hide Turn, MeetsAt, Meets;
  }

  /** A level segment. */
  lemma BetweenMeets(s: Side, p: Vec2, q: Vec2, u: real)
    requires p.y == q.y && 0.0 <= u <= 1.0 && At(s.previous, s.next, u).y == p.y
    requires (At(s.previous, s.next, u).x > p.x) != (At(s.previous, s.next, u).x > q.x)
    ensures Meets(s, p, q)
  {
    var m := At(s.previous, s.next, u);
    var d := q.x - p.x;
    var t := (m.x - p.x) / d;
    DivideBack(d, m.x - p.x);
    if d > 0.0 {
      Fraction(m.x - p.x, d);
    } else {
      assert t == (p.x - m.x) / (-d);
      Fraction(p.x - m.x, -d);
    }
    assert At(p, q, t) == m;
  }

  lemma RisingLevel(s: Side, p: Vec2, q: Vec2)
    requires s.previous.y <= p.y < s.next.y && p.y == q.y && (!Meets(s, p, q) || Passes(s, p, q))
    ensures (Crosses(s, p) != Crosses(s, q)) <==> Passes(s, p, q)
  {
    hide Meets, At, Turn, Crosses;
    var (a, b) := (s.previous, s.next);
    RisingCrosses(s, p);
    RisingCrosses(s, q);
    if !Passes(s, p, q) {
      var u := HitLevel(a, b, p.y);
      var x := At(a, b, u).x;
      LevelSide(a, b, u, p);
      LevelSide(a, b, u, q);
      if (x > p.x) != (x > q.x) {
        BetweenMeets(s, p, q, u);
      }
    }
  }

  lemma LevelSide(a: Vec2, b: Vec2, u: real, p: Vec2)
    requires a.y < b.y && At(a, b, u).y == p.y
    ensures Turn(a, b, p) > 0.0 <==> At(a, b, u).x > p.x
    ensures Turn(a, b, p) < 0.0 <==> At(a, b, u).x < p.x
  {
    LevelTurn(a, b, u, p);
    SignOfProduct(b.y - a.y, At(a, b, u).x - p.x);
  }

  lemma NoStraddle(s: Side, p: Vec2, q: Vec2)
    requires p.y == q.y && !Straddles(s, p)
    ensures !Passes(s, p, q)
  {
    if s.previous.y > p.y || s.next.y > p.y {
      OutOfBand(s, p, q);
    } else {
      OutOfBand(s, p, q);
    }
  }

  lemma MeetsReversed(s: Side, p: Vec2, q: Vec2)
    ensures Meets(s.Reversed(), p, q) ==> Meets(s, p, q)
    ensures Meets(s, q, p) ==> Meets(s, p, q)
  {
    if Meets(s.Reversed(), p, q) {
      var t, u :| 0.0 <= t <= 1.0 && 0.0 <= u <= 1.0 && At(p, q, t) == At(s.next, s.previous, u);
      AtReversed(s.next, s.previous, u);
      assert At(p, q, t) == At(s.previous, s.next, 1.0 - u);
    }
    if Meets(s, q, p) {
      var t, u :| 0.0 <= t <= 1.0 && 0.0 <= u <= 1.0 && At(q, p, t) == At(s.previous, s.next, u);
      AtReversed(q, p, t);
      assert At(p, q, 1.0 - t) == At(s.previous, s.next, u);
    }
  }

  lemma AtReversed(a: Vec2, b: Vec2, u: real)
    ensures At(b, a, 1.0 - u) == At(a, b, u)
  {
    ReversedScalars(a.x, b.x, u);
    ReversedScalars(a.y, b.y, u);
  }

  lemma ReversedScalars(a: real, b: real, u: real)
    ensures b + (1.0 - u) * (a - b) == a + u * (b - a)
  {
  }

  lemma PassesReversed(s: Side, p: Vec2, q: Vec2)
    ensures Passes(s.Reversed(), p, q) <==> Passes(s, p, q)
    ensures Passes(s, q, p) <==> Passes(s, p, q)
  {
    TurnReversed(s.previous, s.next, p);
    TurnReversed(s.previous, s.next, q);
    TurnReversed(p, q, s.previous);
    TurnReversed(p, q, s.next);
    hide Turn;
  }

  lemma SideBalanced(s: Side, p: Vec2, q: Vec2)
    requires p.y <= q.y && (!Meets(s, p, q) || Passes(s, p, q))
    ensures Balanced(s, p, q)
  {
    hide Meets, Passes, Crosses, RightOf;
    var r := s.Reversed();
    MeetsReversed(s, p, q);
    PassesReversed(s, p, q);
    ReversedCrosses(s, p);
    ReversedCrosses(s, q);
    if p.y == q.y {
      LevelPair(s, p, q);
    } else if s.previous.y < s.next.y {
      RisingBalanced(s, p, q);
    } else if s.previous.y == s.next.y {
      LevelBalanced(s, p, q);
    } else {
      RisingBalanced(r, p, q);
    }
  }

  lemma LevelPair(s: Side, p: Vec2, q: Vec2)
    requires p.y == q.y && (!Meets(s, p, q) || Passes(s, p, q))
    ensures Balanced(s, p, q)
  {
    hide Meets, Passes, Turn, MeetsAt;
    MeetsReversed(s, p, q);
    PassesReversed(s, p, q);
    ReversedCrosses(s, p);
    ReversedCrosses(s, q);
    if !Straddles(s, p) {
      NoStraddle(s, p, q);
    } else if s.previous.y <= p.y {
      RisingLevel(s, p, q);
    } else {
      RisingLevel(s.Reversed(), p, q);
    }
  }

  // ---------------------------------------------------------------- the whole polygon

  /** How many sides the segment passes. */
  function Passed(sides: seq<Side>, p: Vec2, q: Vec2): nat {
    if sides == [] then 0 else Passed(sides[..|sides| - 1], p, q) + (if Passes(sides[|sides| - 1], p, q) then 1 else 0)
  }

  /** The segment meets a side only to pass it. */
  ghost predicate Clean(sides: seq<Side>, p: Vec2, q: Vec2) {
    forall i :: 0 <= i < |sides| ==> !Meets(sides[i], p, q) || Passes(sides[i], p, q)
  }

  lemma {:induction false} PassedBalance(sides: seq<Side>, p: Vec2, q: Vec2)
    requires p.y <= q.y && Clean(sides, p, q)
    ensures (Crossings(sides, p) + Crossings(sides, q) + Flips(sides, (v: Vec2) => RightOf(p, q, v))) % 2 == Passed(sides, p, q) % 2
    decreases |sides|
  {
    hide Meets, Passes, Crosses, RightOf;
    if sides != [] {
      var n := |sides| - 1;
      PassedBalance(sides[..n], p, q);
      SideBalanced(sides[n], p, q);
      var (s, rest) := (sides[n], sides[..n]);
      ParityStep(Crossings(rest, p), Crossings(rest, q), Flips(rest, (v: Vec2) => RightOf(p, q, v)), Passed(rest, p, q),
                 Crosses(s, p), Crosses(s, q), RightOf(p, q, s.previous) != RightOf(p, q, s.next), Passes(s, p, q));
    }
  }

  function One(condition: bool): nat {
    if condition then 1 else 0
  }

  lemma ParityStep(c: nat, d: nat, f: nat, n: nat, x: bool, y: bool, z: bool, w: bool)
    requires (c + d + f) % 2 == n % 2 && (((x != y) != z) <==> w)
    ensures (c + One(x) + (d + One(y)) + (f + One(z))) % 2 == (n + One(w)) % 2
  {
  }

  lemma {:induction false} PassedReversed(sides: seq<Side>, p: Vec2, q: Vec2)
    ensures Passed(sides, q, p) == Passed(sides, p, q)
    decreases |sides|
  {
    hide Passes;
    if sides != [] {
      PassedReversed(sides[..|sides| - 1], p, q);
      PassesReversed(sides[|sides| - 1], p, q);
    }
  }

  lemma CleanReversed(sides: seq<Side>, p: Vec2, q: Vec2)
    requires Clean(sides, p, q)
    ensures Clean(sides, q, p)
  {
    hide Meets, Passes;
    forall i | 0 <= i < |sides|
      ensures !Meets(sides[i], q, p) || Passes(sides[i], q, p)
    {
      MeetsReversed(sides[i], p, q);
      PassesReversed(sides[i], p, q);
    }
  }

  /** Two points have the same crossing parity exactly when a segment between
      them that only ever passes sides passes an even number of them. */
  lemma ParityLaw(polygon: seq<Vec2>, p: Vec2, q: Vec2)
    requires Clean(Sides(polygon), p, q)
    ensures Crossings(Sides(polygon), p) % 2 == Crossings(Sides(polygon), q) % 2 <==> Passed(Sides(polygon), p, q) % 2 == 0
  {
    hide Clean, Passed, Crossings, Flips, RightOf, Sides;
    var sides := Sides(polygon);
    if p.y <= q.y {
      PassedBalance(sides, p, q);
      FlipsEven(polygon, (v: Vec2) => RightOf(p, q, v));
    } else {
      CleanReversed(sides, p, q);
      PassedReversed(sides, p, q);
      PassedBalance(sides, q, p);
      FlipsEven(polygon, (v: Vec2) => RightOf(q, p, v));
    }
  }
}
