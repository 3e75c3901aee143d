/** The prism swept from a triangulated face: raised caps, and one wall for
    every edge that a single triangle uses. */
module FaceSweep {
  import opened Linalg
  import opened Mesh
  import opened Volume

  datatype Arc = Arc(tail: nat, head: nat)

  /** A vertex of the face, in its plane or raised by the offset. */
  datatype Corner = Corner(index: nat, raised: bool)

  type Polygon = seq<Corner>

  function Low(i: nat): Corner {
    Corner(i, false)
  }

  function High(i: nat): Corner {
    Corner(i, true)
  }

  // ---------------------------------------------------------------- surfaces

  function Cap(t: Tri): Polygon {
    [High(t.a), High(t.b), High(t.c)]
  }

  /** The face itself, seen from below. */
  function Base(t: Tri): Polygon {
    [Low(t.a), Low(t.c), Low(t.b)]
  }

  function Wall(w: Arc): Polygon {
    [Low(w.tail), Low(w.head), High(w.head), High(w.tail)]
  }

  function Caps(ts: seq<Tri>): (r: seq<Polygon>)
    ensures |r| == |ts|
  {
    seq(|ts|, i requires 0 <= i < |ts| => Cap(ts[i]))
  }

  function Bases(ts: seq<Tri>): (r: seq<Polygon>)
    ensures |r| == |ts|
  {
    seq(|ts|, i requires 0 <= i < |ts| => Base(ts[i]))
  }

  function Walls(arcs: seq<Arc>): (r: seq<Polygon>)
    ensures |r| == |arcs|
  {
    seq(|arcs|, i requires 0 <= i < |arcs| => Wall(arcs[i]))
  }

  /** The whole prism boundary. */
  function Prism(ts: seq<Tri>, arcs: seq<Arc>): seq<Polygon> {
    Caps(ts) + Bases(ts) + Walls(arcs)
  }

  /** How often the first n sides of a closed polygon run from p to q. */
  function SidesTo(poly: Polygon, p: Corner, q: Corner, n: nat): nat
    requires n <= |poly|
    decreases n
  {
    if n == 0 then 0
    else SidesTo(poly, p, q, n - 1) + One(poly[n - 1] == p && poly[if n == |poly| then 0 else n] == q)
  }

  function SurfaceUsesTo(surface: seq<Polygon>, p: Corner, q: Corner, n: nat): nat
    requires n <= |surface|
    decreases n
  {
    if n == 0 then 0
    else SurfaceUsesTo(surface, p, q, n - 1) + SidesTo(surface[n - 1], p, q, |surface[n - 1]|)
  }

  function SurfaceUses(surface: seq<Polygon>, p: Corner, q: Corner): nat {
    SurfaceUsesTo(surface, p, q, |surface|)
  }

  /** Every directed edge is matched by its reverse. */
  ghost predicate ClosedSurface(surface: seq<Polygon>) {
    forall p, q :: SurfaceUses(surface, p, q) == SurfaceUses(surface, q, p)
  }

  lemma {:induction false} SurfacePrefix(a: seq<Polygon>, b: seq<Polygon>, p: Corner, q: Corner, n: nat)
    requires n <= |a|
    ensures SurfaceUsesTo(a + b, p, q, n) == SurfaceUsesTo(a, p, q, n)
    decreases n
  {
    if n > 0 {
      SurfacePrefix(a, b, p, q, n - 1);
    }
  }

  lemma {:induction false} SurfaceAppendTo(a: seq<Polygon>, b: seq<Polygon>, p: Corner, q: Corner, n: nat)
    requires n <= |b|
    ensures SurfaceUsesTo(a + b, p, q, |a| + n) == SurfaceUses(a, p, q) + SurfaceUsesTo(b, p, q, n)
    decreases n
  {
    if n == 0 {
      SurfacePrefix(a, b, p, q, |a|);
    } else {
      SurfaceAppendTo(a, b, p, q, n - 1);
      assert (a + b)[|a| + n - 1] == b[n - 1];
    }
  }

  lemma CapSides(t: Tri, p: Corner, q: Corner)
    ensures SidesTo(Cap(t), p, q, 3) == if p.raised && q.raised then TriUses(t, p.index, q.index) else 0
  {
    var poly := Cap(t);
    assert SidesTo(poly, p, q, 1) == One(poly[0] == p && poly[1] == q);
    assert SidesTo(poly, p, q, 2) == SidesTo(poly, p, q, 1) + One(poly[1] == p && poly[2] == q);
    assert SidesTo(poly, p, q, 3) == SidesTo(poly, p, q, 2) + One(poly[2] == p && poly[0] == q);
  }

  lemma BaseSides(t: Tri, p: Corner, q: Corner)
    ensures SidesTo(Base(t), p, q, 3) == if !p.raised && !q.raised then TriUses(t, q.index, p.index) else 0
  {
    var poly := Base(t);
    assert SidesTo(poly, p, q, 1) == One(poly[0] == p && poly[1] == q);
    assert SidesTo(poly, p, q, 2) == SidesTo(poly, p, q, 1) + One(poly[1] == p && poly[2] == q);
    assert SidesTo(poly, p, q, 3) == SidesTo(poly, p, q, 2) + One(poly[2] == p && poly[0] == q);
  }

  /** The sides of a wall: along, up at the head, back on top, down at the tail. */
  function WallSides(w: Arc, p: Corner, q: Corner): nat {
    if p.raised == q.raised then
      if p.raised then One(w == Arc(q.index, p.index)) else One(w == Arc(p.index, q.index))
    else if p.index != q.index then 0
    else if q.raised then One(w.head == p.index) else One(w.tail == p.index)
  }

  lemma WallSidesAre(w: Arc, p: Corner, q: Corner)
    ensures SidesTo(Wall(w), p, q, 4) == WallSides(w, p, q)
  {
    var poly := Wall(w);
    assert SidesTo(poly, p, q, 1) == One(poly[0] == p && poly[1] == q);
    assert SidesTo(poly, p, q, 2) == SidesTo(poly, p, q, 1) + One(poly[1] == p && poly[2] == q);
    assert SidesTo(poly, p, q, 3) == SidesTo(poly, p, q, 2) + One(poly[2] == p && poly[3] == q);
    assert SidesTo(poly, p, q, 4) == SidesTo(poly, p, q, 3) + One(poly[3] == p && poly[0] == q);
  }

  // ---------------------------------------------------------------- uses by kind

  lemma {:induction false} CapUses(ts: seq<Tri>, p: Corner, q: Corner, n: nat)
    requires n <= |ts|
    ensures SurfaceUsesTo(Caps(ts), p, q, n) == if p.raised && q.raised then UsesTo(ts, p.index, q.index, n) else 0
    decreases n
  {
    hide SidesTo, TriUses;
    if n > 0 {
      CapUses(ts, p, q, n - 1);
      CapSides(ts[n - 1], p, q);
    }
  }

  lemma {:induction false} BaseUses(ts: seq<Tri>, p: Corner, q: Corner, n: nat)
    requires n <= |ts|
    ensures SurfaceUsesTo(Bases(ts), p, q, n) == if !p.raised && !q.raised then UsesTo(ts, q.index, p.index, n) else 0
    decreases n
  {
    hide SidesTo, TriUses;
    if n > 0 {
      BaseUses(ts, p, q, n - 1);
      BaseSides(ts[n - 1], p, q);
    }
  }

  function ArcUsesTo(arcs: seq<Arc>, u: nat, v: nat, n: nat): nat
    requires n <= |arcs|
    decreases n
  {
    if n == 0 then 0 else ArcUsesTo(arcs, u, v, n - 1) + One(arcs[n - 1] == Arc(u, v))
  }

  function ArcUses(arcs: seq<Arc>, u: nat, v: nat): nat {
    ArcUsesTo(arcs, u, v, |arcs|)
  }

  /** Arcs that end, or start, at v. */
  function HeadsTo(arcs: seq<Arc>, v: nat, n: nat): nat
    requires n <= |arcs|
    decreases n
  {
    if n == 0 then 0 else HeadsTo(arcs, v, n - 1) + One(arcs[n - 1].head == v)
  }

  function TailsTo(arcs: seq<Arc>, v: nat, n: nat): nat
    requires n <= |arcs|
    decreases n
  {
    if n == 0 then 0 else TailsTo(arcs, v, n - 1) + One(arcs[n - 1].tail == v)
  }

  lemma {:induction false} WallUses(arcs: seq<Arc>, p: Corner, q: Corner, n: nat)
    requires n <= |arcs|
    ensures SurfaceUsesTo(Walls(arcs), p, q, n)
         == if p.raised == q.raised then
              if p.raised then ArcUsesTo(arcs, q.index, p.index, n) else ArcUsesTo(arcs, p.index, q.index, n)
            else if p.index != q.index then 0
            else if q.raised then HeadsTo(arcs, p.index, n) else TailsTo(arcs, p.index, n)
    decreases n
  {
    hide SidesTo;
    if n > 0 {
      WallUses(arcs, p, q, n - 1);
      WallSidesAre(arcs[n - 1], p, q);
    }
  }

  /** How often the prism runs from p to q. */
  lemma PrismUses(ts: seq<Tri>, arcs: seq<Arc>, p: Corner, q: Corner)
    ensures SurfaceUses(Prism(ts, arcs), p, q)
         == if p.raised && q.raised then Uses(ts, p.index, q.index) + ArcUses(arcs, q.index, p.index)
            else if !p.raised && !q.raised then Uses(ts, q.index, p.index) + ArcUses(arcs, p.index, q.index)
            else if p.index != q.index then 0
            else if q.raised then HeadsTo(arcs, p.index, |arcs|) else TailsTo(arcs, p.index, |arcs|)
  {
    hide SurfaceUsesTo, UsesTo, ArcUsesTo, HeadsTo, TailsTo, Caps, Bases, Walls;
    SurfaceAppendTo(Caps(ts), Bases(ts), p, q, |ts|);
    SurfaceAppendTo(Caps(ts) + Bases(ts), Walls(arcs), p, q, |arcs|);
    CapUses(ts, p, q, |ts|);
    BaseUses(ts, p, q, |ts|);
    WallUses(arcs, p, q, |arcs|);
  }

  // ---------------------------------------------------------------- degrees

  /** Sum over u < m of the uses u -> v, less those v -> u. */
  function NetTo(ts: seq<Tri>, v: nat, n: nat, m: nat): int
    requires n <= |ts|
    decreases m
  {
    if m == 0 then 0 else NetTo(ts, v, n, m - 1) + UsesTo(ts, m - 1, v, n) - UsesTo(ts, v, m - 1, n)
  }

  function TriNet(t: Tri, v: nat, m: nat): int {
    if m == 0 then 0 else TriNet(t, v, m - 1) + TriUses(t, m - 1, v) - TriUses(t, v, m - 1)
  }

  lemma {:induction false} TriNetIs(t: Tri, v: nat, m: nat)
    ensures TriNet(t, v, m)
         == One(t.a < m && t.b == v) + One(t.b < m && t.c == v) + One(t.c < m && t.a == v)
            - One(t.b < m && t.a == v) - One(t.c < m && t.b == v) - One(t.a < m && t.c == v)
    decreases m
  {
    if m > 0 {
      TriNetIs(t, v, m - 1);
    }
  }

  lemma {:induction false} NetStep(ts: seq<Tri>, v: nat, n: nat, m: nat)
    requires 0 < n <= |ts|
    ensures NetTo(ts, v, n, m) == NetTo(ts, v, n - 1, m) + TriNet(ts[n - 1], v, m)
    decreases m
  {
    hide TriUses;
    if m > 0 {
      NetStep(ts, v, n, m - 1);
    }
  }

  /** Triangles are cycles: as many edges enter a vertex as leave it. */
  lemma {:induction false} NetVanishes(ts: seq<Tri>, v: nat, n: nat, m: nat)
    requires InRange(ts, m) && n <= |ts|
    ensures NetTo(ts, v, n, m) == 0
    decreases n
  {
    if n == 0 {
      NetNone(ts, v, m);
    } else {
      NetVanishes(ts, v, n - 1, m);
      NetStep(ts, v, n, m);
      TriNetIs(ts[n - 1], v, m);
    }
  }

  lemma {:induction false} NetNone(ts: seq<Tri>, v: nat, m: nat)
    ensures NetTo(ts, v, 0, m) == 0
    decreases m
  {
    if m > 0 {
      NetNone(ts, v, m - 1);
    }
  }

  function ArcNetTo(arcs: seq<Arc>, v: nat, n: nat, m: nat): int
    requires n <= |arcs|
    decreases m
  {
    if m == 0 then 0 else ArcNetTo(arcs, v, n, m - 1) + ArcUsesTo(arcs, m - 1, v, n) - ArcUsesTo(arcs, v, m - 1, n)
  }

  lemma {:induction false} ArcNetStep(arcs: seq<Arc>, v: nat, n: nat, m: nat)
    requires 0 < n <= |arcs|
    ensures ArcNetTo(arcs, v, n, m)
         == ArcNetTo(arcs, v, n - 1, m) + One(arcs[n - 1].tail < m && arcs[n - 1].head == v) - One(arcs[n - 1].head < m && arcs[n - 1].tail == v)
    decreases m
  {
    if m > 0 {
      ArcNetStep(arcs, v, n, m - 1);
    }
  }

  lemma {:induction false} ArcNetNone(arcs: seq<Arc>, v: nat, m: nat)
    ensures ArcNetTo(arcs, v, 0, m) == 0
    decreases m
  {
    if m > 0 {
      ArcNetNone(arcs, v, m - 1);
    }
  }

  lemma {:induction false} ArcNetIs(arcs: seq<Arc>, v: nat, n: nat, m: nat)
    requires n <= |arcs| && forall i :: 0 <= i < |arcs| ==> arcs[i].tail < m && arcs[i].head < m
    ensures ArcNetTo(arcs, v, n, m) == HeadsTo(arcs, v, n) - TailsTo(arcs, v, n)
    decreases n
  {
    if n == 0 {
      ArcNetNone(arcs, v, m);
    } else {
      ArcNetIs(arcs, v, n - 1, m);
      ArcNetStep(arcs, v, n, m);
    }
  }

  // ---------------------------------------------------------------- when the prism is closed

  /** The walls stand, with their direction, on the edges used exactly once. */
  ghost predicate OnSingleEdges(ts: seq<Tri>, arcs: seq<Arc>) {
    forall u: nat, v: nat :: ArcUses(arcs, u, v) == One(EdgeUses(ts, u, v) == 1 && Uses(ts, u, v) == 1)
  }

  /** Every edge is used once, or equally often in both directions. */
  ghost predicate SingleOrBalanced(ts: seq<Tri>) {
    forall u: nat, v: nat :: EdgeUses(ts, u, v) == 1 || Uses(ts, u, v) == Uses(ts, v, u)
  }

  lemma {:induction false} NetsAgree(ts: seq<Tri>, arcs: seq<Arc>, v: nat, m: nat)
    requires OnSingleEdges(ts, arcs) && SingleOrBalanced(ts)
    ensures ArcNetTo(arcs, v, |arcs|, m) == NetTo(ts, v, |ts|, m)
    decreases m
  {
    if m > 0 {
      NetsAgree(ts, arcs, v, m - 1);
      var u := m - 1;
      assert ArcUses(arcs, u, v) == One(EdgeUses(ts, u, v) == 1 && Uses(ts, u, v) == 1);
      assert ArcUses(arcs, v, u) == One(EdgeUses(ts, v, u) == 1 && Uses(ts, v, u) == 1);
      assert EdgeUses(ts, u, v) == 1 || Uses(ts, u, v) == Uses(ts, v, u);
    }
  }

  lemma {:induction false} UsedInRange(ts: seq<Tri>, u: nat, v: nat, n: nat, m: nat)
    requires InRange(ts, m) && n <= |ts| && UsesTo(ts, u, v, n) > 0
    ensures u < m && v < m
    decreases n
  {
    if UsesTo(ts, u, v, n - 1) > 0 {
      UsedInRange(ts, u, v, n - 1, m);
    }
  }

  lemma {:induction false} ArcCounted(arcs: seq<Arc>, i: nat, n: nat)
    requires i < n <= |arcs|
    ensures ArcUsesTo(arcs, arcs[i].tail, arcs[i].head, n) >= 1
    decreases n
  {
    if i < n - 1 {
      ArcCounted(arcs, i, n - 1);
    }
  }

  lemma ArcsInRange(ts: seq<Tri>, arcs: seq<Arc>, m: nat)
    requires OnSingleEdges(ts, arcs) && InRange(ts, m)
    ensures forall i :: 0 <= i < |arcs| ==> arcs[i].tail < m && arcs[i].head < m
  {
    hide InRange;
    forall i | 0 <= i < |arcs|
      ensures arcs[i].tail < m && arcs[i].head < m
    {
      ArcCounted(arcs, i, |arcs|);
      assert ArcUses(arcs, arcs[i].tail, arcs[i].head) >= 1;
      UsedInRange(ts, arcs[i].tail, arcs[i].head, |ts|, m);
    }
  }

  /** As many walls end at a vertex as start there. */
  lemma WallsBalanced(ts: seq<Tri>, arcs: seq<Arc>, m: nat, v: nat)
    requires OnSingleEdges(ts, arcs) && SingleOrBalanced(ts) && InRange(ts, m)
    ensures HeadsTo(arcs, v, |arcs|) == TailsTo(arcs, v, |arcs|)
  {
    NetsAgree(ts, arcs, v, m);
    NetVanishes(ts, v, |ts|, m);
    ArcsInRange(ts, arcs, m);
    ArcNetIs(arcs, v, |arcs|, m);
  }

  lemma FlatBalance(ts: seq<Tri>, arcs: seq<Arc>, u: nat, v: nat)
    requires OnSingleEdges(ts, arcs)
    ensures Uses(ts, u, v) + ArcUses(arcs, v, u) == Uses(ts, v, u) + ArcUses(arcs, u, v)
       <==> EdgeUses(ts, u, v) == 1 || Uses(ts, u, v) == Uses(ts, v, u)
  {
    assert ArcUses(arcs, u, v) == One(EdgeUses(ts, u, v) == 1 && Uses(ts, u, v) == 1);
    assert ArcUses(arcs, v, u) == One(EdgeUses(ts, v, u) == 1 && Uses(ts, v, u) == 1);
  }

  /** The caps, the reversed face and the walls close up exactly when every edge
      of the triangulation is used once, or equally often in both directions. */
  lemma PrismClosed(ts: seq<Tri>, arcs: seq<Arc>, m: nat)
    requires OnSingleEdges(ts, arcs) && InRange(ts, m)
    ensures ClosedSurface(Prism(ts, arcs)) <==> SingleOrBalanced(ts)
  {
    hide SurfaceUses, Prism, Uses, ArcUses, OnSingleEdges;
    if SingleOrBalanced(ts) {
      forall p, q
        ensures SurfaceUses(Prism(ts, arcs), p, q) == SurfaceUses(Prism(ts, arcs), q, p)
      {
        PrismUses(ts, arcs, p, q);
        PrismUses(ts, arcs, q, p);
        WallsBalanced(ts, arcs, m, p.index);
        FlatBalance(ts, arcs, p.index, q.index);
      }
    }
    if ClosedSurface(Prism(ts, arcs)) {
      forall u: nat, v: nat
        ensures EdgeUses(ts, u, v) == 1 || Uses(ts, u, v) == Uses(ts, v, u)
      {
        PrismUses(ts, arcs, High(u), High(v));
        PrismUses(ts, arcs, High(v), High(u));
        FlatBalance(ts, arcs, u, v);
      }
    }
  }

  /** In particular when each edge is used once, or twice in opposite directions. */
  lemma ManifoldFaceCloses(ts: seq<Tri>, arcs: seq<Arc>, m: nat)
    requires OnSingleEdges(ts, arcs) && InRange(ts, m)
    requires forall u: nat, v: nat :: u != v ==> Uses(ts, u, v) <= 1
    ensures ClosedSurface(Prism(ts, arcs))
  {
    hide ClosedSurface, OnSingleEdges, InRange, Prism;
    PrismClosed(ts, arcs, m);
    assert SingleOrBalanced(ts);
  }

  /** Two triangles on the same side of a common edge. */
  function Doubled(a: nat, b: nat, c: nat, d: nat): seq<Tri> {
    [Tri(a, b, c), Tri(a, b, d)]
  }

  lemma DoubledUses(a: nat, b: nat, c: nat, d: nat)
    requires a != b && b != c && c != a && b != d && d != a
    ensures Uses(Doubled(a, b, c, d), a, b) == 2 && Uses(Doubled(a, b, c, d), b, a) == 0
  {
    var ts := Doubled(a, b, c, d);
    forall u: nat, v: nat
      ensures Uses(ts, u, v) == TriUses(ts[0], u, v) + TriUses(ts[1], u, v)
    {
      assert UsesTo(ts, u, v, 1) == TriUses(ts[0], u, v);
      assert UsesTo(ts, u, v, 2) == UsesTo(ts, u, v, 1) + TriUses(ts[1], u, v);
    }
  }

  /** Such a face gets no wall on the common edge, and its prism stays open. */
  lemma DoubledFaceStaysOpen(a: nat, b: nat, c: nat, d: nat, arcs: seq<Arc>, m: nat)
    requires a != b && b != c && c != a && b != d && d != a && a < m && b < m && c < m && d < m
    requires OnSingleEdges(Doubled(a, b, c, d), arcs)
    ensures ArcUses(arcs, a, b) == 0 && ArcUses(arcs, b, a) == 0
    ensures !ClosedSurface(Prism(Doubled(a, b, c, d), arcs))
  {
    hide ClosedSurface, Prism, ArcUses, UsesTo;
    var ts := Doubled(a, b, c, d);
    DoubledUses(a, b, c, d);
    assert InRange(ts, m);
    PrismClosed(ts, arcs, m);
    assert !SingleOrBalanced(ts) by {
      assert EdgeUses(ts, a, b) == 2;
    }
  }

  // ---------------------------------------------------------------- counting edges

  /** The first direction an edge was met in, and how often it was met. */
  datatype Met = Met(first: Arc, uses: nat)

  type EdgeUse = map<Edge, Met>

  function CountOf(m: EdgeUse, e: Edge): nat {
    if e in m then m[e].uses else 0
  }

  function Meet(m: EdgeUse, u: nat, v: nat): EdgeUse {
    var e := EdgeOf(u, v);
    m[e := if e in m then m[e].(uses := m[e].uses + 1) else Met(Arc(u, v), 1)]
  }

  function EdgeUsesTo(ts: seq<Tri>, u: nat, v: nat, n: nat): nat
    requires n <= |ts|
  {
    if u == v then UsesTo(ts, u, u, n) else UsesTo(ts, u, v, n) + UsesTo(ts, v, u, n)
  }

  /** The map counts every edge, and each first direction is really used. */
  ghost predicate Recorded(m: EdgeUse, ts: seq<Tri>, n: nat)
    requires n <= |ts|
  {
    && (forall u: nat, v: nat :: CountOf(m, EdgeOf(u, v)) == EdgeUsesTo(ts, u, v, n))
    && (forall e :: e in m ==> EdgeOf(m[e].first.tail, m[e].first.head) == e && UsesTo(ts, m[e].first.tail, m[e].first.head, n) >= 1)
  }

  function MeetTri(m: EdgeUse, t: Tri): EdgeUse {
    Meet(Meet(Meet(m, t.a, t.b), t.b, t.c), t.c, t.a)
  }

  lemma MeetCounts(m: EdgeUse, u: nat, v: nat, e: Edge)
    ensures CountOf(Meet(m, u, v), e) == CountOf(m, e) + One(EdgeOf(u, v) == e)
    ensures e in Meet(m, u, v) ==> if e in m then Meet(m, u, v)[e].first == m[e].first else Meet(m, u, v)[e].first == Arc(u, v) && EdgeOf(u, v) == e
  {
  }

  lemma MeetTriCounts(m: EdgeUse, t: Tri, u: nat, v: nat)
    ensures CountOf(MeetTri(m, t), EdgeOf(u, v))
         == CountOf(m, EdgeOf(u, v)) + (if u == v then TriUses(t, u, u) else TriUses(t, u, v) + TriUses(t, v, u))
  {
    hide Meet, CountOf;
    var e := EdgeOf(u, v);
    MeetCounts(m, t.a, t.b, e);
    MeetCounts(Meet(m, t.a, t.b), t.b, t.c, e);
    MeetCounts(Meet(Meet(m, t.a, t.b), t.b, t.c), t.c, t.a, e);
  }

  lemma MeetTriFirst(m: EdgeUse, t: Tri, e: Edge)
    requires e in MeetTri(m, t)
    ensures var first := MeetTri(m, t)[e].first;
            if e in m then first == m[e].first
            else EdgeOf(first.tail, first.head) == e && TriUses(t, first.tail, first.head) >= 1
  {
    hide Meet, CountOf;
    var m1 := Meet(m, t.a, t.b);
    var m2 := Meet(m1, t.b, t.c);
    MeetCounts(m, t.a, t.b, e);
    MeetCounts(m1, t.b, t.c, e);
    MeetCounts(m2, t.c, t.a, e);
    KeyStays(m, t.a, t.b, e);
    KeyStays(m1, t.b, t.c, e);
  }

  lemma KeyStays(m: EdgeUse, u: nat, v: nat, e: Edge)
    ensures e in m ==> e in Meet(m, u, v)
  {
  }

  lemma RecordedStep(m: EdgeUse, ts: seq<Tri>, n: nat)
    requires n < |ts| && Recorded(m, ts, n)
    ensures Recorded(MeetTri(m, ts[n]), ts, n + 1)
  {
    hide MeetTri, TriUses, CountOf;
    var m' := MeetTri(m, ts[n]);
    forall u: nat, v: nat
      ensures CountOf(m', EdgeOf(u, v)) == EdgeUsesTo(ts, u, v, n + 1)
    {
      MeetTriCounts(m, ts[n], u, v);
    }
    forall e | e in m'
      ensures EdgeOf(m'[e].first.tail, m'[e].first.head) == e && UsesTo(ts, m'[e].first.tail, m'[e].first.head, n + 1) >= 1
    {
      MeetTriFirst(m, ts[n], e);
    }
  }

  // ---------------------------------------------------------------- the guide

  /** The triangles that belong to the picked face. */
  function Picked(triangles: seq<Tri>, onFace: seq<bool>): seq<Tri>
    requires |onFace| == |triangles|
  {
    if triangles == [] then []
    else
      var n := |triangles| - 1;
      Picked(triangles[..n], onFace[..n]) + (if onFace[n] then [triangles[n]] else [])
  }

  function At(vertices: seq<Vec3>, offset: Vec3, c: Corner): Vec3
    requires c.index < |vertices|
  {
    if c.raised then Add(vertices[c.index], offset) else vertices[c.index]
  }

  ghost predicate Drawable(vertices: seq<Vec3>, poly: Polygon) {
    forall k :: 0 <= k < |poly| ==> poly[k].index < |vertices|
  }

  /** `drawn` shows the corners of `poly`. */
  ghost predicate Draws(vertices: seq<Vec3>, offset: Vec3, poly: Polygon, drawn: seq<Vec3>) {
    && Drawable(vertices, poly)
    && |drawn| == |poly|
    && forall k :: 0 <= k < |poly| ==> drawn[k] == At(vertices, offset, poly[k])
  }

  ghost predicate DrawsAll(vertices: seq<Vec3>, offset: Vec3, surface: seq<Polygon>, drawn: seq<seq<Vec3>>) {
    |drawn| == |surface| && forall i :: 0 <= i < |surface| ==> Draws(vertices, offset, surface[i], drawn[i])
  }

  lemma ArcUsesAppend(arcs: seq<Arc>, w: Arc, u: nat, v: nat)
    ensures ArcUses(arcs + [w], u, v) == ArcUses(arcs, u, v) + One(w == Arc(u, v))
  {
    ArcUsesPrefix(arcs, [w], u, v, |arcs|);
  }

  lemma {:induction false} ArcUsesPrefix(a: seq<Arc>, b: seq<Arc>, u: nat, v: nat, n: nat)
    requires n <= |a|
    ensures ArcUsesTo(a + b, u, v, n) == ArcUsesTo(a, u, v, n)
    decreases n
  {
    if n > 0 {
      ArcUsesPrefix(a, b, u, v, n - 1);
    }
  }

  /** One arc for each edge met once, outside `rest`. */
  ghost predicate SingleArcs(m: EdgeUse, rest: set<Edge>, arcs: seq<Arc>) {
    forall u: nat, v: nat :: ArcUses(arcs, u, v) == One(MetOnce(m, rest, u, v))
  }

  ghost predicate MetOnce(m: EdgeUse, rest: set<Edge>, u: nat, v: nat) {
    var e := EdgeOf(u, v);
    e in m && e !in rest && m[e].uses == 1 && m[e].first == Arc(u, v)
  }

  lemma SingleArcsStep(m: EdgeUse, rest: set<Edge>, arcs: seq<Arc>, e: Edge, ts: seq<Tri>)
    requires Recorded(m, ts, |ts|) && SingleArcs(m, rest, arcs) && e in rest && e in m
    ensures SingleArcs(m, rest - {e}, if m[e].uses == 1 then arcs + [m[e].first] else arcs)
  {
    hide ArcUses, CountOf, EdgeUsesTo, UsesTo;
    var arcs' := if m[e].uses == 1 then arcs + [m[e].first] else arcs;
    forall u: nat, v: nat
      ensures ArcUses(arcs', u, v) == One(MetOnce(m, rest - {e}, u, v))
    {
      ArcUsesAppend(arcs, m[e].first, u, v);
      assert m[e].first == Arc(u, v) ==> EdgeOf(u, v) == e;
    }
  }

  lemma WallsOnSingleEdges(m: EdgeUse, ts: seq<Tri>, arcs: seq<Arc>)
    requires Recorded(m, ts, |ts|) && SingleArcs(m, {}, arcs)
    ensures OnSingleEdges(ts, arcs)
  {
    hide ArcUses, UsesTo;
    forall u: nat, v: nat
      ensures ArcUses(arcs, u, v) == One(EdgeUses(ts, u, v) == 1 && Uses(ts, u, v) == 1)
    {
      var e := EdgeOf(u, v);
      assert CountOf(m, e) == EdgeUses(ts, u, v);
      if e in m && m[e].uses == 1 {
        var w := m[e].first;
        assert w == Arc(u, v) || w == Arc(v, u);
      }
    }
  }

  lemma RecordedGrows(m: EdgeUse, face: seq<Tri>, t: Tri)
    requires Recorded(m, face, |face|)
    ensures Recorded(m, face + [t], |face|)
  {
    hide CountOf;
    forall u: nat, v: nat
      ensures UsesTo(face + [t], u, v, |face|) == UsesTo(face, u, v, |face|)
    {
      SameUses(face + [t], face, u, v, |face|);
    }
    hide UsesTo;
  }

  lemma PickedStep(triangles: seq<Tri>, onFace: seq<bool>, i: nat)
    requires |onFace| == |triangles| && i < |triangles|
    ensures Picked(triangles[..i + 1], onFace[..i + 1]) == Picked(triangles[..i], onFace[..i]) + (if onFace[i] then [triangles[i]] else [])
  {
    assert triangles[..i + 1][..i] == triangles[..i] && onFace[..i + 1][..i] == onFace[..i];
  }

  /** Raised caps and edge counts of the picked face. */
  method CollectFace(vertices: seq<Vec3>, triangles: seq<Tri>, onFace: seq<bool>, offset: Vec3)
    returns (caps: seq<seq<Vec3>>, edges: EdgeUse)
    requires InRange(triangles, |vertices|) && |onFace| == |triangles|
    ensures var face := Picked(triangles, onFace);
            InRange(face, |vertices|) && DrawsAll(vertices, offset, Caps(face), caps) && Recorded(edges, face, |face|)
  {
    hide Recorded, Picked, MeetTri, DrawsAll;
    caps, edges := [], map[];
    ghost var face: seq<Tri> := [];
    NothingYet(vertices, triangles, onFace, offset);
    for i := 0 to |triangles|
      invariant face == Picked(triangles[..i], onFace[..i]) && InRange(face, |vertices|)
      invariant DrawsAll(vertices, offset, Caps(face), caps) && Recorded(edges, face, |face|)
    {
      PickedStep(triangles, onFace, i);
      if onFace[i] {
        var t := triangles[i];
        CapsStep(vertices, offset, face, caps, t);
        caps := caps + [[Add(vertices[t.a], offset), Add(vertices[t.b], offset), Add(vertices[t.c], offset)]];
        RecordedGrows(edges, face, t);
        RecordedStep(edges, face + [t], |face|);
        edges := MeetTri(edges, t);
        face := face + [t];
      }
    }
    assert triangles[..|triangles|] == triangles && onFace[..|onFace|] == onFace;
  }

  lemma NothingYet(vertices: seq<Vec3>, triangles: seq<Tri>, onFace: seq<bool>, offset: Vec3)
    requires |onFace| == |triangles|
    ensures Picked(triangles[..0], onFace[..0]) == [] && DrawsAll(vertices, offset, Caps([]), []) && Recorded(map[], [], 0)
  {
  }

  lemma CapsStep(vertices: seq<Vec3>, offset: Vec3, face: seq<Tri>, caps: seq<seq<Vec3>>, t: Tri)
    requires DrawsAll(vertices, offset, Caps(face), caps) && t.a < |vertices| && t.b < |vertices| && t.c < |vertices|
    ensures DrawsAll(vertices, offset, Caps(face + [t]),
                     caps + [[Add(vertices[t.a], offset), Add(vertices[t.b], offset), Add(vertices[t.c], offset)]])
  {
    hide Add;
    assert Caps(face + [t]) == Caps(face) + [Cap(t)];
    hide Caps;
    assert Draws(vertices, offset, Cap(t), [Add(vertices[t.a], offset), Add(vertices[t.b], offset), Add(vertices[t.c], offset)]);
    hide Draws;
  }

  lemma WallsStep(vertices: seq<Vec3>, offset: Vec3, arcs: seq<Arc>, walls: seq<seq<Vec3>>, w: Arc)
    requires DrawsAll(vertices, offset, Walls(arcs), walls) && w.tail < |vertices| && w.head < |vertices|
    ensures DrawsAll(vertices, offset, Walls(arcs + [w]), walls + [WallAt(vertices, offset, w)])
  {
    hide Add;
    assert Walls(arcs + [w]) == Walls(arcs) + [Wall(w)];
    hide Walls;
    assert Draws(vertices, offset, Wall(w), WallAt(vertices, offset, w));
    hide Draws;
  }

  function WallAt(vertices: seq<Vec3>, offset: Vec3, w: Arc): seq<Vec3>
    requires w.tail < |vertices| && w.head < |vertices|
  {
    var (a, b) := (vertices[w.tail], vertices[w.head]);
    [a, b, Add(b, offset), Add(a, offset)]
  }

  lemma FirstInRange(m: EdgeUse, ts: seq<Tri>, e: Edge, n: nat)
    requires Recorded(m, ts, |ts|) && e in m && InRange(ts, n)
    ensures m[e].first.tail < n && m[e].first.head < n
  {
    UsedInRange(ts, m[e].first.tail, m[e].first.head, |ts|, n);
  }

  /** Ascending order of edges, by lower and then by higher vertex. */
  predicate Before(e: Edge, f: Edge) {
    e.low < f.low || (e.low == f.low && e.high < f.high)
  }

  lemma LeastEdge(rest: set<Edge>) returns (least: Edge)
    requires rest != {}
    ensures least in rest && forall f :: f in rest && f != least ==> Before(least, f)
    decreases |rest|
  {
    var e :| e in rest;
    var others := rest - {e};
    assert forall f :: f in rest ==> f == e || f in others;
    if others == {} {
      least := e;
    } else {
      var other := LeastEdge(others);
      least := if Before(e, other) then e else other;
    }
  }

  ghost predicate Ascending(arcs: seq<Arc>) {
    forall i, j :: 0 <= i < j < |arcs| ==> Before(EdgeOf(arcs[i].tail, arcs[i].head), EdgeOf(arcs[j].tail, arcs[j].head))
  }

  /** Every wall so far stands on an edge before all that are left. */
  ghost predicate AllBefore(arcs: seq<Arc>, rest: set<Edge>) {
    forall i, f :: 0 <= i < |arcs| && f in rest ==> Before(EdgeOf(arcs[i].tail, arcs[i].head), f)
  }

  lemma AscendingStep(arcs: seq<Arc>, rest: set<Edge>, e: Edge, w: Arc)
    requires Ascending(arcs) && AllBefore(arcs, rest) && e in rest && EdgeOf(w.tail, w.head) == e
    requires forall f :: f in rest && f != e ==> Before(e, f)
    ensures Ascending(arcs + [w]) && AllBefore(arcs + [w], rest - {e}) && AllBefore(arcs, rest - {e})
  {
  }

  lemma FirstOnEdge(m: EdgeUse, ts: seq<Tri>, e: Edge)
    requires Recorded(m, ts, |ts|) && e in m
    ensures EdgeOf(m[e].first.tail, m[e].first.head) == e
  {
    hide CountOf, UsesTo;
  }

  /** The guide of a picked face: `arcs` names the walls, in ascending order of
      their edges. With the face itself
      turned over it bounds a closed prism exactly when every edge of the
      face's triangulation is used once, or equally often in both directions. */
  method DragMesh(vertices: seq<Vec3>, triangles: seq<Tri>, onFace: seq<bool>, offset: Vec3)
    returns (caps: seq<seq<Vec3>>, walls: seq<seq<Vec3>>, ghost arcs: seq<Arc>)
    requires InRange(triangles, |vertices|) && |onFace| == |triangles|
    ensures DrawsAll(vertices, offset, Caps(Picked(triangles, onFace)), caps)
    ensures DrawsAll(vertices, offset, Walls(arcs), walls)
    ensures OnSingleEdges(Picked(triangles, onFace), arcs) && Ascending(arcs)
    ensures ClosedSurface(Prism(Picked(triangles, onFace), arcs)) <==> SingleOrBalanced(Picked(triangles, onFace))
  {
    hide InRange, Recorded, Picked, SingleArcs, DrawsAll, ClosedSurface, SingleOrBalanced, OnSingleEdges, Prism, Walls, Caps, WallAt, Ascending, AllBefore, Before;
    var edges;
    caps, edges := CollectFace(vertices, triangles, onFace, offset);
    ghost var face := Picked(triangles, onFace);
    walls, arcs := [], [];
    NoWallsYet(vertices, offset, edges);
    var rest := edges.Keys;
    while rest != {}
      invariant rest <= edges.Keys
      invariant Ascending(arcs) && AllBefore(arcs, rest)
      invariant SingleArcs(edges, rest, arcs) && DrawsAll(vertices, offset, Walls(arcs), walls)
      decreases rest
    {
      ghost var least := LeastEdge(rest);
      var e :| e in rest && forall f :: f in rest && f != e ==> Before(e, f);
      SingleArcsStep(edges, rest, arcs, e, face);
      FirstOnEdge(edges, face, e);
      AscendingStep(arcs, rest, e, edges[e].first);
      FirstInRange(edges, face, e, |vertices|);
      if edges[e].uses == 1 {
        WallsStep(vertices, offset, arcs, walls, edges[e].first);
        walls := walls + [WallAt(vertices, offset, edges[e].first)];
        arcs := arcs + [edges[e].first];
      }
      rest := rest - {e};
    }
    WallsOnSingleEdges(edges, face, arcs);
    PrismClosed(face, arcs, |vertices|);
  }

  lemma NoWallsYet(vertices: seq<Vec3>, offset: Vec3, edges: EdgeUse)
    ensures SingleArcs(edges, edges.Keys, []) && DrawsAll(vertices, offset, Walls([]), [])
    ensures Ascending([]) && AllBefore([], edges.Keys)
  {
  }
}
