/** One shell becomes one solid: compacted, wound consistently, turned outward. */
module Solids {
  import opened Results
  import opened Linalg
  import opened Mesh
  import opened Volume
  import opened Convexity
  import opened Welding
  import Shells
  import Orientation

  datatype Solid = Solid(vertices: seq<Vec3>, triangles: seq<Tri>)

  datatype Refusal = NotClosed | Contradictory

  /** Indices in range, every vertex used, every edge traversed once in each
      direction, a volume that is not negative, and a surface that faces
      outward when it is convex. */
  ghost predicate Wound(s: Solid) {
    && |s.triangles| > 0
    && InRange(s.triangles, |s.vertices|)
    && Coherent(s.triangles)
    && VolumeTimesSix(s.vertices, s.triangles) >= 0.0
    && (Convex(s.vertices, s.triangles) ==> Outward(s.vertices, s.triangles))
    && forall v :: 0 <= v < |s.vertices| ==> Shells.Touched(s.triangles, v)
  }

  /** Such a solid, with no position stored twice. */
  ghost predicate Sound(s: Solid) {
    Wound(s) && Distinct(s.vertices)
  }

  lemma CompactDistinct(vertices: seq<Vec3>, ts: seq<Tri>, used: seq<nat>, vertices': seq<Vec3>, ts': seq<Tri>)
    requires Shells.Compacts(vertices, ts, used, vertices', ts') && Distinct(vertices)
    ensures Distinct(vertices')
  {
    forall i, j | 0 <= i < j < |vertices'|
      ensures vertices'[i] != vertices'[j]
    {
      assert used[i] < used[j];
    }
  }

  ghost function FacetAt(vertices: seq<Vec3>, t: Tri): Facet
    requires t.a < |vertices| && t.b < |vertices| && t.c < |vertices|
  {
    Facet(vertices[t.a], vertices[t.b], vertices[t.c])
  }

  /** The same facet, or the same seen from the other side. */
  ghost predicate SameUnoriented(f: Facet, g: Facet) {
    f == g || f == Facet(g.a, g.c, g.b)
  }

  /** Triangle by triangle the same positions, up to the side they are seen from. */
  ghost predicate SameSurface(s: Solid, vertices: seq<Vec3>, ts: seq<Tri>)
    requires InRange(ts, |vertices|)
  {
    && |s.triangles| == |ts|
    && InRange(s.triangles, |s.vertices|)
    && forall t :: 0 <= t < |ts| ==> SameUnoriented(FacetAt(s.vertices, s.triangles[t]), FacetAt(vertices, ts[t]))
  }

  // ---------------------------------------------------------------- renumbering keeps the topology

  /** ts' is ts with vertex used[i] called i. */
  ghost predicate Renumbers(used: seq<nat>, ts: seq<Tri>, ts': seq<Tri>) {
    && Shells.Increasing(used)
    && |ts'| == |ts|
    && forall t :: 0 <= t < |ts| ==>
                     && ts'[t].a < |used| && ts'[t].b < |used| && ts'[t].c < |used|
                     && ts[t] == Tri(used[ts'[t].a], used[ts'[t].b], used[ts'[t].c])
  }

  lemma {:induction false} RenumberedUses(used: seq<nat>, ts: seq<Tri>, ts': seq<Tri>, i: nat, j: nat, n: nat)
    requires Renumbers(used, ts, ts') && i < |used| && j < |used| && n <= |ts|
    ensures UsesTo(ts', i, j, n) == UsesTo(ts, used[i], used[j], n)
    decreases n
  {
    if n > 0 {
      RenumberedUses(used, ts, ts', i, j, n - 1);
      var t := ts'[n - 1];
      forall x: nat, y: nat | x < |used| && y < |used|
        ensures used[x] == used[y] <==> x == y
      {
        Shells.SameIndex(used, x, y);
      }
    }
  }

  lemma {:induction false} OutsideUnused(ts: seq<Tri>, u: nat, v: nat, n: nat)
    requires n <= |ts| && (!Shells.Touched(ts, u) || !Shells.Touched(ts, v))
    ensures UsesTo(ts, u, v, n) == 0
    decreases n
  {
    if n > 0 {
      OutsideUnused(ts, u, v, n - 1);
      assert !Shells.HasCorner(ts[n - 1], u) || !Shells.HasCorner(ts[n - 1], v);
    }
  }

  lemma TouchedIsUsed(used: seq<nat>, ts: seq<Tri>, ts': seq<Tri>, u: nat) returns (i: nat)
    requires Renumbers(used, ts, ts') && Shells.Touched(ts, u)
    ensures i < |used| && used[i] == u
  {
    var t :| 0 <= t < |ts| && Shells.HasCorner(ts[t], u);
    i := if ts[t].a == u then ts'[t].a else if ts[t].b == u then ts'[t].b else ts'[t].c;
  }

  /** Uses of a pair by new names, or by old names when it is unused. */
  lemma PairRenumbered(used: seq<nat>, ts: seq<Tri>, ts': seq<Tri>, u: nat, v: nat) returns (i: nat, j: nat)
    requires Renumbers(used, ts, ts')
    ensures (Uses(ts, u, v) == Uses(ts, v, u) == 0)
            || (i < |used| && j < |used| && used[i] == u && used[j] == v
                && Uses(ts, u, v) == Uses(ts', i, j) && Uses(ts, v, u) == Uses(ts', j, i))
  {
    hide UsesTo, Renumbers;
    RenumberedLength(used, ts, ts');
    if Shells.Touched(ts, u) && Shells.Touched(ts, v) {
      i := TouchedIsUsed(used, ts, ts', u);
      j := TouchedIsUsed(used, ts, ts', v);
      RenumberedUses(used, ts, ts', i, j, |ts|);
      RenumberedUses(used, ts, ts', j, i, |ts|);
    } else {
      i, j := 0, 0;
      OutsideUnused(ts, u, v, |ts|);
      OutsideUnused(ts, v, u, |ts|);
    }
  }

  lemma RenumberedLength(used: seq<nat>, ts: seq<Tri>, ts': seq<Tri>)
    requires Renumbers(used, ts, ts')
    ensures |ts| == |ts'|
    ensures forall u: nat, v: nat :: u >= |used| || v >= |used| ==> Uses(ts', u, v) == 0
  {
    forall u: nat, v: nat | u >= |used| || v >= |used|
      ensures Uses(ts', u, v) == 0
    {
      assert u >= |used| ==> !Shells.Touched(ts', u);
      assert v >= |used| ==> !Shells.Touched(ts', v);
      OutsideUnused(ts', u, v, |ts'|);
    }
  }

  lemma RenumberedCoherent(used: seq<nat>, ts: seq<Tri>, ts': seq<Tri>)
    requires Renumbers(used, ts, ts')
    ensures Coherent(ts) <==> Coherent(ts')
    ensures TwoManifold(ts) <==> TwoManifold(ts')
  {
    hide UsesTo, Uses;
    RenumberedLength(used, ts, ts');
    forall i: nat, j: nat | i < |used| && j < |used|
      ensures Uses(ts', i, j) == Uses(ts, used[i], used[j]) && (used[i] == used[j] <==> i == j)
    {
      BothRenumbered(used, ts, ts', i, j);
    }
    if Coherent(ts') {
      forall u: nat, v: nat | u != v
        ensures Uses(ts, u, v) == Uses(ts, v, u) <= 1
      {
        var i, j := PairRenumbered(used, ts, ts', u, v);
      }
    }
    if TwoManifold(ts') {
      forall u: nat, v: nat | u != v && Uses(ts, u, v) + Uses(ts, v, u) > 0
        ensures Uses(ts, u, v) + Uses(ts, v, u) == 2
      {
        var i, j := PairRenumbered(used, ts, ts', u, v);
      }
    }
    BackTo(used, ts, ts');
  }

  lemma BothRenumbered(used: seq<nat>, ts: seq<Tri>, ts': seq<Tri>, i: nat, j: nat)
    requires Renumbers(used, ts, ts') && i < |used| && j < |used|
    ensures Uses(ts', i, j) == Uses(ts, used[i], used[j]) && (used[i] == used[j] <==> i == j)
  {
    RenumberedUses(used, ts, ts', i, j, |ts|);
    Shells.SameIndex(used, i, j);
  }

  lemma BackTo(used: seq<nat>, ts: seq<Tri>, ts': seq<Tri>)
    requires Renumbers(used, ts, ts')
    ensures Coherent(ts) ==> Coherent(ts')
    ensures TwoManifold(ts) ==> TwoManifold(ts')
  {
    hide Uses, Renumbers, Coherent, TwoManifold;
    RenumberedLength(used, ts, ts');
    forall i: nat, j: nat | i != j
      ensures Coherent(ts) ==> Uses(ts', i, j) == Uses(ts', j, i) <= 1
      ensures TwoManifold(ts) ==> Uses(ts', i, j) + Uses(ts', j, i) > 0 ==> Uses(ts', i, j) + Uses(ts', j, i) == 2
    {
      if i < |used| && j < |used| {
        BothRenumbered(used, ts, ts', i, j);
        BothRenumbered(used, ts, ts', j, i);
        CoherentPair(ts, used[i], used[j]);
      }
    }
    CoherentFromPairs(ts, ts');
  }

  lemma CoherentPair(ts: seq<Tri>, u: nat, v: nat)
    requires u != v
    ensures Coherent(ts) ==> Uses(ts, u, v) == Uses(ts, v, u) <= 1
    ensures TwoManifold(ts) ==> Uses(ts, u, v) + Uses(ts, v, u) > 0 ==> Uses(ts, u, v) + Uses(ts, v, u) == 2
  {
  }

  lemma CoherentFromPairs(ts: seq<Tri>, ts': seq<Tri>)
    requires forall i: nat, j: nat :: i != j ==> Coherent(ts) ==> Uses(ts', i, j) == Uses(ts', j, i) <= 1
    requires forall i: nat, j: nat :: i != j ==> TwoManifold(ts) ==> Uses(ts', i, j) + Uses(ts', j, i) > 0 ==> Uses(ts', i, j) + Uses(ts', j, i) == 2
    ensures Coherent(ts) ==> Coherent(ts')
    ensures TwoManifold(ts) ==> TwoManifold(ts')
  {
    hide Uses;
  }

  lemma RenumberedTwice(used: seq<nat>, ts: seq<Tri>, ts': seq<Tri>)
    requires Renumbers(used, ts, ts')
    ensures EveryEdgeTwice(ts) <==> EveryEdgeTwice(ts')
  {
    hide Uses, Renumbers;
    RenumberedLength(used, ts, ts');
    if EveryEdgeTwice(ts') {
      forall u: nat, v: nat
        ensures EdgeUses(ts, u, v) == 0 || EdgeUses(ts, u, v) == 2
      {
        var i, j := PairRenumbered(used, ts, ts', u, v);
        if i < |used| && j < |used| {
          BothRenumbered(used, ts, ts', i, j);
        }
        assert EdgeUses(ts', i, j) == 0 || EdgeUses(ts', i, j) == 2;
      }
    }
    if EveryEdgeTwice(ts) {
      forall i: nat, j: nat
        ensures EdgeUses(ts', i, j) == 0 || EdgeUses(ts', i, j) == 2
      {
        if i < |used| && j < |used| {
          BothRenumbered(used, ts, ts', i, j);
          BothRenumbered(used, ts, ts', j, i);
          assert EdgeUses(ts, used[i], used[j]) == 0 || EdgeUses(ts, used[i], used[j]) == 2;
        }
      }
    }
  }

  lemma FlippedRenumbers(used: seq<nat>, ts: seq<Tri>, ts': seq<Tri>, g: seq<bool>)
    requires Renumbers(used, ts, ts') && |g| == |ts|
    ensures Renumbers(used, Flipped(ts, g), Flipped(ts', g))
  {
  }

  /** A shell and its compacted form are orientable together. */
  lemma RenumberedOrientable(used: seq<nat>, ts: seq<Tri>, ts': seq<Tri>)
    requires Renumbers(used, ts, ts')
    ensures Orientation.Orientable(ts) <==> Orientation.Orientable(ts')
    ensures TwoManifold(ts) <==> TwoManifold(ts')
    ensures NoLoops(ts) ==> NoLoops(ts')
  {
    RenumberedCoherent(used, ts, ts');
    forall g: seq<bool> | |g| == |ts|
      ensures Coherent(Flipped(ts, g)) <==> Coherent(Flipped(ts', g))
    {
      FlippedRenumbers(used, ts, ts', g);
      RenumberedCoherent(used, Flipped(ts, g), Flipped(ts', g));
    }
    hide Coherent, Flipped, TwoManifold;
  }

  // ---------------------------------------------------------------- the pipeline for one shell

  /** Each triangle kept or turned over. */
  ghost predicate KeptOrFlipped(ts: seq<Tri>, ts': seq<Tri>) {
    |ts| == |ts'| && forall t :: 0 <= t < |ts| ==> ts'[t] == ts[t] || ts'[t] == ts[t].Flip()
  }

  lemma FlipsKeepSurface(vertices: seq<Vec3>, shell: seq<Tri>, used: seq<nat>, vs: seq<Vec3>, ts: seq<Tri>, ts': seq<Tri>)
    requires InRange(shell, |vertices|) && Shells.Compacts(vertices, shell, used, vs, ts) && KeptOrFlipped(ts, ts')
    ensures SameSurface(Solid(vs, ts'), vertices, shell)
    ensures forall v :: 0 <= v < |vs| ==> Shells.Touched(ts', v)
  {
    forall t | 0 <= t < |shell|
      ensures ts'[t].a < |vs| && ts'[t].b < |vs| && ts'[t].c < |vs|
      ensures SameUnoriented(FacetAt(vs, ts'[t]), FacetAt(vertices, shell[t]))
    {
    }
    forall v | 0 <= v < |vs|
      ensures Shells.Touched(ts', v)
    {
      assert 0 <= v < |used|;
      assert Shells.Touched(ts, v);
      var t :| 0 <= t < |ts| && Shells.HasCorner(ts[t], v);
      assert Shells.HasCorner(ts'[t], v);
    }
  }

  /** Compacts, winds and turns one shell. A solid shows the shell's own
      surface; without degenerate triangles a shell is refused exactly when it
      is not a closed two-manifold or has no coherent winding. */
  method BuildSolid(vertices: seq<Vec3>, shell: seq<Tri>) returns (r: Result<Solid, Refusal>)
    requires InRange(shell, |vertices|) && |shell| > 0
    ensures r.Ok? ==> Wound(r.value) && SameSurface(r.value, vertices, shell)
    ensures r.Ok? && Distinct(vertices) ==> Sound(r.value)
    ensures r == Err(NotClosed) <==> !EveryEdgeTwice(shell)
    ensures NoLoops(shell) ==> (r == Err(NotClosed) <==> !TwoManifold(shell))
    ensures NoLoops(shell) ==> (r == Err(Contradictory) <==> TwoManifold(shell) && !Orientation.Orientable(shell))
  {
    hide Orientation.Orientable, TwoManifold, EveryEdgeTwice, Coherent, NoLoops, Shells.Touched, VolumeTimesSix, Orientation.Paired, Shells.Compacts, Distinct, Convex, Outward;
    var vs, ts, used := Shells.CompactShell(vertices, shell);
    CompactRenumbers(vertices, shell, used, vs, ts);
    RenumberedOrientable(used, shell, ts);
    RenumberedTwice(used, shell, ts);
    if Distinct(vertices) {
      CompactDistinct(vertices, shell, used, vs, ts);
    }
    var triangles := new Tri[|ts|](i requires 0 <= i < |ts| => ts[i]);
    assert triangles[..] == ts;
    var outcome := Orientation.OrientConsistently(triangles);
    if outcome != Orientation.Oriented {
      return Err(if outcome == Orientation.NotClosed then NotClosed else Contradictory);
    }
    ghost var wound := triangles[..];
    WoundInRange(vs, ts, wound);
    OrientPositive(vs, triangles);
    assert KeptOrFlipped(ts, triangles[..]) by {
      TurnedKeepsFlips(ts, wound, triangles[..]);
    }
    FlipsKeepSurface(vertices, shell, used, vs, ts, triangles[..]);
    if Convex(vs, triangles[..]) {
      ConvexFacesOutward(vs, triangles[..]);
    }
    r := Ok(Solid(vs, triangles[..]));
  }

  lemma CompactRenumbers(vertices: seq<Vec3>, shell: seq<Tri>, used: seq<nat>, vs: seq<Vec3>, ts: seq<Tri>)
    requires Shells.Compacts(vertices, shell, used, vs, ts)
    ensures Renumbers(used, shell, ts) && InRange(ts, |vs|) && |ts| == |shell|
  {
  }

  lemma WoundInRange(vs: seq<Vec3>, ts: seq<Tri>, wound: seq<Tri>)
    requires InRange(ts, |vs|) && exists g :: |g| == |ts| && wound == Flipped(ts, g)
    ensures InRange(wound, |vs|) && KeptOrFlipped(ts, wound)
  {
  }

  lemma TurnedKeepsFlips(ts: seq<Tri>, wound: seq<Tri>, turned: seq<Tri>)
    requires KeptOrFlipped(ts, wound)
    requires turned == wound || (|turned| == |wound| && forall t :: 0 <= t < |wound| ==> turned[t] == wound[t].Flip())
    ensures KeptOrFlipped(ts, turned)
  {
  }
}
