/** Consistent winding of a closed mesh: breadth-first parity propagation. */
module Orientation {
  import opened Results
  import opened Mesh

  // ---------------------------------------------------------------- owners of an edge

  /** A triangle that uses an edge, and whether it runs from low to high. */
  datatype Owner = Owner(triangle: nat, forward: bool)

  /** The owners of `e` among the three edges of triangle t. */
  function OwnersIn(t: Tri, index: nat, e: Edge): seq<Owner> {
    (if EdgeOf(t.a, t.b) == e then [Owner(index, t.a < t.b)] else [])
    + (if EdgeOf(t.b, t.c) == e then [Owner(index, t.b < t.c)] else [])
    + (if EdgeOf(t.c, t.a) == e then [Owner(index, t.c < t.a)] else [])
  }

  function OwnersTo(ts: seq<Tri>, e: Edge, n: nat): seq<Owner>
    requires n <= |ts|
    decreases n
  {
    if n == 0 then [] else OwnersTo(ts, e, n - 1) + OwnersIn(ts[n - 1], n - 1, e)
  }

  function Owners(ts: seq<Tri>, e: Edge): seq<Owner> {
    OwnersTo(ts, e, |ts|)
  }

  /** How many owners run from low to high once the flips are made. */
  function ForwardAfter(owners: seq<Owner>, flips: seq<bool>): nat
    requires forall k :: 0 <= k < |owners| ==> owners[k].triangle < |flips|
  {
    if |owners| == 0 then 0
    else
      var last := owners[|owners| - 1];
      ForwardAfter(owners[..|owners| - 1], flips) + One(last.forward != flips[last.triangle])
  }

  lemma {:induction false} OwnersInRange(ts: seq<Tri>, e: Edge, n: nat)
    requires n <= |ts|
    ensures forall k :: 0 <= k < |OwnersTo(ts, e, n)| ==> OwnersTo(ts, e, n)[k].triangle < n
    decreases n
  {
    if n > 0 {
      OwnersInRange(ts, e, n - 1);
    }
  }

  lemma {:induction false} ForwardAppend(a: seq<Owner>, b: seq<Owner>, flips: seq<bool>)
    requires forall k :: 0 <= k < |a| ==> a[k].triangle < |flips|
    requires forall k :: 0 <= k < |b| ==> b[k].triangle < |flips|
    ensures ForwardAfter(a + b, flips) == ForwardAfter(a, flips) + ForwardAfter(b, flips)
    decreases |b|
  {
    if |b| == 0 {
      assert a + b == a;
    } else {
      ForwardAppend(a, b[..|b| - 1], flips);
      assert (a + b)[..|a + b| - 1] == a + b[..|b| - 1];
    }
  }

  lemma OwnersInUses(t: Tri, index: nat, u: nat, v: nat, flips: seq<bool>)
    requires u < v && index < |flips|
    ensures var owners := OwnersIn(t, index, Edge(u, v));
            && |owners| == TriUses(t, u, v) + TriUses(t, v, u)
            && (forall k :: 0 <= k < |owners| ==> owners[k].triangle == index)
            && ForwardAfter(owners, flips) == TriUses(if flips[index] then t.Flip() else t, u, v)
  {
    var owners := OwnersIn(t, index, Edge(u, v));
    FlipUses(t, u, v);
    if |owners| > 0 {
      SmallForward(owners, flips, index);
    }
  }

  lemma SmallForward(owners: seq<Owner>, flips: seq<bool>, index: nat)
    requires 1 <= |owners| <= 3 && index < |flips| && forall k :: 0 <= k < |owners| ==> owners[k].triangle == index
    ensures ForwardAfter(owners, flips)
         == One(owners[0].forward != flips[index])
            + (if |owners| > 1 then One(owners[1].forward != flips[index]) else 0)
            + (if |owners| > 2 then One(owners[2].forward != flips[index]) else 0)
  {
    var none: seq<Owner> := [];
    assert owners[..1][..0] == none;
    assert ForwardAfter(owners[..1], flips) == One(owners[0].forward != flips[index]);
    if |owners| > 1 {
      assert owners[..2][..1] == owners[..1];
      assert ForwardAfter(owners[..2], flips) == ForwardAfter(owners[..1], flips) + One(owners[1].forward != flips[index]);
    }
    assert owners[..|owners|] == owners;
  }

  /** Counting owners is counting uses, before and after any flips. */
  lemma {:induction false} OwnersAreUses(ts: seq<Tri>, flips: seq<bool>, u: nat, v: nat, n: nat)
    requires u < v && n <= |ts| == |flips|
    ensures forall k :: 0 <= k < |OwnersTo(ts, Edge(u, v), n)| ==> OwnersTo(ts, Edge(u, v), n)[k].triangle < n
    ensures |OwnersTo(ts, Edge(u, v), n)| == UsesTo(ts, u, v, n) + UsesTo(ts, v, u, n)
    ensures ForwardAfter(OwnersTo(ts, Edge(u, v), n), flips) == UsesTo(Flipped(ts, flips), u, v, n)
    decreases n
  {
    hide OwnersIn, TriUses;
    OwnersInRange(ts, Edge(u, v), n);
    if n > 0 {
      OwnersAreUses(ts, flips, u, v, n - 1);
      OwnersInUses(ts[n - 1], n - 1, u, v, flips);
      ForwardAppend(OwnersTo(ts, Edge(u, v), n - 1), OwnersIn(ts[n - 1], n - 1, Edge(u, v)), flips);
    }
  }

  // ---------------------------------------------------------------- parity constraints

  /** A neighbour, and whether both run along the shared edge in the same direction. */
  datatype Link = Link(neighbor: nat, same: bool)

  type Adjacency = seq<seq<Link>>

  ghost predicate WellFormed(adj: Adjacency) {
    && (forall x, l :: 0 <= x < |adj| && l in adj[x] ==> l.neighbor < |adj|)
    && (forall x, l :: 0 <= x < |adj| && l in adj[x] ==> Link(x, l.same) in adj[l.neighbor])
  }

  /** Neighbours along the same direction are turned differently, others alike. */
  ghost predicate Satisfies(adj: Adjacency, g: seq<bool>)
    requires |g| == |adj| && WellFormed(adj)
  {
    forall x, l :: 0 <= x < |adj| && l in adj[x] ==> g[l.neighbor] == (g[x] != l.same)
  }

  type Partial = seq<Option<bool>>

  /** Triangle x is decided and so are its neighbours, as its links require. */
  ghost predicate Settled(adj: Adjacency, flips: Partial, x: nat)
    requires |flips| == |adj| && WellFormed(adj) && x < |adj|
  {
    flips[x].Some? && forall l :: l in adj[x] ==> flips[l.neighbor] == Some(flips[x].value != l.same)
  }

  /** The search from `start` so far: `region` is what it has reached, and the
      region agrees with every solution, up to turning all of it over. */
  ghost predicate Searching(adj: Adjacency, flips: Partial, region: set<nat>, start: nat)
    requires WellFormed(adj)
  {
    && |flips| == |adj|
    && start in region
    && (forall x :: x in region ==> x < |adj| && flips[x].Some?)
    && (forall x :: 0 <= x < |adj| && flips[x].Some? && x !in region ==> Settled(adj, flips, x))
    && (forall x, l :: 0 <= x < |adj| && flips[x].Some? && x !in region && l in adj[x] ==> l.neighbor !in region)
    && (forall g, x :: |g| == |adj| && Satisfies(adj, g) && x in region ==>
                         (flips[x].value != g[x]) == (flips[start].value != g[start]))
  }

  ghost function Undecided(flips: Partial): set<nat> {
    set x | 0 <= x < |flips| && flips[x].None?
  }

  /** Deciding a neighbour as its link requires keeps the search sound. */
  lemma ExtendRegion(adj: Adjacency, flips: Partial, region: set<nat>, start: nat, x: nat, l: Link)
    requires WellFormed(adj) && Searching(adj, flips, region, start)
    requires x in region && l in adj[x] && flips[l.neighbor].None?
    ensures Searching(adj, flips[l.neighbor := Some(flips[x].value != l.same)], region + {l.neighbor}, start)
  {
    var y := l.neighbor;
    var flips' := flips[y := Some(flips[x].value != l.same)];
    forall z, m | 0 <= z < |adj| && flips'[z].Some? && z !in region + {y} && m in adj[z]
      ensures m.neighbor !in region + {y}
    {
      assert Settled(adj, flips, z);
    }
    forall g, z | |g| == |adj| && Satisfies(adj, g) && z in region + {y}
      ensures (flips'[z].value != g[z]) == (flips'[start].value != g[start])
    {
      assert g[y] == (g[x] != l.same);
      assert (flips[x].value != g[x]) == (flips[start].value != g[start]);
    }
  }

  /** A region neighbour that is already decided lies in the region. */
  lemma NeighborInRegion(adj: Adjacency, flips: Partial, region: set<nat>, start: nat, x: nat, l: Link)
    requires WellFormed(adj) && Searching(adj, flips, region, start)
    requires x in region && l in adj[x] && flips[l.neighbor].Some?
    ensures l.neighbor in region
  {
    assert Link(x, l.same) in adj[l.neighbor];
  }

  /** A conflict inside the region leaves no solution at all. */
  lemma ConflictRefutes(adj: Adjacency, flips: Partial, region: set<nat>, start: nat, x: nat, l: Link, g: seq<bool>)
    requires WellFormed(adj) && Searching(adj, flips, region, start)
    requires x in region && l in adj[x] && flips[l.neighbor].Some? && flips[l.neighbor].value != (flips[x].value != l.same)
    requires |g| == |adj|
    ensures !Satisfies(adj, g)
  {
    NeighborInRegion(adj, flips, region, start, x, l);
  }

  // ---------------------------------------------------------------- sorting links

  function Insert(l: Link, links: seq<Link>): (r: seq<Link>)
    ensures multiset(r) == multiset(links) + multiset{l}
  {
    if |links| == 0 then [l]
    else if l.neighbor < links[0].neighbor then [l] + links
    else
      assert links == [links[0]] + links[1..];
      [links[0]] + Insert(l, links[1..])
  }

  /** Links by ascending neighbour. */
  function Sorted(links: seq<Link>): (r: seq<Link>)
    ensures multiset(r) == multiset(links)
  {
    if |links| == 0 then []
    else
      assert links == [links[0]] + links[1..];
      Insert(links[0], Sorted(links[1..]))
  }

  lemma SortedMembers(links: seq<Link>)
    ensures forall l :: l in Sorted(links) <==> l in links
  {
    forall l
      ensures l in Sorted(links) <==> l in links
    {
      assert l in Sorted(links) <==> l in multiset(Sorted(links));
      assert l in links <==> l in multiset(links);
    }
  }

  // ---------------------------------------------------------------- the search

  /** What the queue means: everything decided but not queued is settled. */
  ghost predicate Progress(adj: Adjacency, flips: Partial, region: set<nat>, queue: seq<nat>, current: set<nat>)
    requires WellFormed(adj) && |flips| == |adj|
  {
    && (forall q :: q in queue ==> q in region)
    && (forall x :: 0 <= x < |adj| && flips[x].Some? && x !in queue && x !in current ==> Settled(adj, flips, x))
  }

  /** Decides the neighbours of `current`, or finds a contradiction. */
  method Visit(adj: Adjacency, current: nat, flips0: Partial, queue0: seq<nat>, ghost region0: set<nat>, ghost start: nat)
    returns (ok: bool, flips: Partial, queue: seq<nat>, ghost region: set<nat>)
    requires WellFormed(adj) && Searching(adj, flips0, region0, start) && current in region0
    requires Progress(adj, flips0, region0, queue0, {current})
    ensures !ok ==> forall g :: |g| == |adj| ==> !Satisfies(adj, g)
    ensures ok ==> Searching(adj, flips, region, start) && Progress(adj, flips, region, queue, {})
    ensures ok ==> forall x :: 0 <= x < |adj| && flips0[x].Some? ==> flips[x] == flips0[x]
    ensures ok ==> Undecided(flips) <= Undecided(flips0)
    ensures ok ==> |queue| == |queue0| || Undecided(flips) < Undecided(flips0)
  {
    hide Searching, Progress, Satisfies, Settled, Undecided;
    flips, queue, region := flips0, queue0, region0;
    RegionFacts(adj, flips, region, start, current);
    var links := Sorted(adj[current]);
    SortedMembers(adj[current]);
    for k := 0 to |links|
      invariant |flips| == |adj| && Searching(adj, flips, region, start) && current in region
      invariant Progress(adj, flips, region, queue, {current})
      invariant forall x :: 0 <= x < |adj| && flips0[x].Some? ==> flips[x] == flips0[x]
      invariant forall i :: 0 <= i < k ==> flips[links[i].neighbor] == Some(flips[current].value != links[i].same)
      invariant Undecided(flips) <= Undecided(flips0)
      invariant |queue| == |queue0| || Undecided(flips) < Undecided(flips0)
    {
      var l := links[k];
      assert l in adj[current] && l.neighbor < |adj|;
      var required := flips[current].value != l.same;
      if flips[l.neighbor].None? {
        Decide(adj, flips, region, start, queue, current, l);
        flips := flips[l.neighbor := Some(required)];
        queue := queue + [l.neighbor];
        region := region + {l.neighbor};
      } else if flips[l.neighbor].value != required {
        forall g: seq<bool> | |g| == |adj|
          ensures !Satisfies(adj, g)
        {
          ConflictRefutes(adj, flips, region, start, current, l, g);
        }
        return false, flips, queue, region;
      }
    }
    NowSettled(adj, flips, region, queue, current, links);
    ok := true;
  }

  lemma RegionFacts(adj: Adjacency, flips: Partial, region: set<nat>, start: nat, x: nat)
    requires WellFormed(adj) && Searching(adj, flips, region, start) && x in region
    ensures |flips| == |adj| && x < |adj| && flips[x].Some?
  {
  }

  lemma Decide(adj: Adjacency, flips: Partial, region: set<nat>, start: nat, queue: seq<nat>, current: nat, l: Link)
    requires WellFormed(adj) && Searching(adj, flips, region, start) && current in region
    requires Progress(adj, flips, region, queue, {current})
    requires l in adj[current] && flips[l.neighbor].None?
    ensures var flips' := flips[l.neighbor := Some(flips[current].value != l.same)];
            && Searching(adj, flips', region + {l.neighbor}, start)
            && Progress(adj, flips', region + {l.neighbor}, queue + [l.neighbor], {current})
            && Undecided(flips') < Undecided(flips)
  {
    var flips' := flips[l.neighbor := Some(flips[current].value != l.same)];
    ExtendRegion(adj, flips, region, start, current, l);
    hide Searching;
    StillSettled(adj, flips, flips', l.neighbor);
    assert l.neighbor in Undecided(flips) && l.neighbor !in Undecided(flips');
    hide Settled;
  }

  lemma NowSettled(adj: Adjacency, flips: Partial, region: set<nat>, queue: seq<nat>, current: nat, links: seq<Link>)
    requires WellFormed(adj) && |flips| == |adj| && current < |adj| && flips[current].Some?
    requires Progress(adj, flips, region, queue, {current})
    requires forall l :: l in adj[current] ==> l in links
    requires forall i :: 0 <= i < |links| ==> links[i].neighbor < |adj| && flips[links[i].neighbor] == Some(flips[current].value != links[i].same)
    ensures Progress(adj, flips, region, queue, {})
  {
    assert Settled(adj, flips, current);
  }

  lemma StillSettled(adj: Adjacency, before: Partial, after: Partial, y: nat)
    requires WellFormed(adj) && |before| == |after| == |adj| && y < |adj| && before[y].None?
    requires forall x :: 0 <= x < |adj| && x != y ==> after[x] == before[x]
    ensures forall x :: 0 <= x < |adj| && Settled(adj, before, x) ==> Settled(adj, after, x)
  {
  }

  /** Explores everything linked to `start`. */
  method Explore(adj: Adjacency, start: nat, flips0: Partial) returns (ok: bool, flips: Partial)
    requires WellFormed(adj) && |flips0| == |adj| && start < |adj| && flips0[start].None?
    requires forall x :: 0 <= x < |adj| && flips0[x].Some? ==> Settled(adj, flips0, x)
    ensures !ok ==> forall g :: |g| == |adj| ==> !Satisfies(adj, g)
    ensures ok ==> |flips| == |adj| && flips[start].Some?
    ensures ok ==> forall x :: 0 <= x < |adj| && flips0[x].Some? ==> flips[x] == flips0[x]
    ensures ok ==> forall x :: 0 <= x < |adj| && flips[x].Some? ==> Settled(adj, flips, x)
  {
    flips := flips0[start := Some(false)];
    var queue := [start];
    ghost var region := {start};
    StillSettled(adj, flips0, flips, start);
    while |queue| > 0
      invariant Searching(adj, flips, region, start)
      invariant Progress(adj, flips, region, queue, {})
      invariant forall x :: 0 <= x < |adj| && flips0[x].Some? ==> flips[x] == flips0[x]
      decreases Undecided(flips), |queue|
    {
      var current := queue[0];
      assert current in region;
      ok, flips, queue, region := Visit(adj, current, flips, queue[1..], region, start);
      if !ok {
        return;
      }
    }
    ok := true;
  }

  /** Decides every triangle, or reports that no decision satisfies all links. */
  method Propagate(adj: Adjacency) returns (r: Option<seq<bool>>)
    requires WellFormed(adj)
    ensures r.Some? ==> |r.value| == |adj| && Satisfies(adj, r.value)
    ensures r.None? ==> forall g :: |g| == |adj| ==> !Satisfies(adj, g)
  {
    var flips: Partial := seq(|adj|, _ => None);
    for start := 0 to |adj|
      invariant |flips| == |adj|
      invariant forall x :: 0 <= x < start ==> flips[x].Some?
      invariant forall x :: 0 <= x < |adj| && flips[x].Some? ==> Settled(adj, flips, x)
    {
      if flips[start].None? {
        var ok;
        ok, flips := Explore(adj, start, flips);
        if !ok {
          return None;
        }
      }
    }
    var decided := seq(|adj|, x requires 0 <= x < |adj| => flips[x].value);
    forall x, l | 0 <= x < |adj| && l in adj[x]
      ensures decided[l.neighbor] == (decided[x] != l.same)
    {
      assert Settled(adj, flips, x);
    }
    return Some(decided);
  }

  // ---------------------------------------------------------------- recording owners

  type OwnerMap = map<Edge, seq<Owner>>

  function Recorded(m: OwnerMap, e: Edge): seq<Owner> {
    if e in m then m[e] else []
  }

  function Record(m: OwnerMap, u: nat, v: nat, index: nat): OwnerMap {
    m[EdgeOf(u, v) := Recorded(m, EdgeOf(u, v)) + [Owner(index, u < v)]]
  }

  /** The owners of every edge, in order of discovery. */
  method CollectOwners(ts: seq<Tri>) returns (m: OwnerMap)
    ensures forall e :: Recorded(m, e) == Owners(ts, e)
    ensures forall e :: e in m ==> m[e] != []
  {
    hide Record, OwnersIn;
    m := map[];
    for t := 0 to |ts|
      invariant forall e :: Recorded(m, e) == OwnersTo(ts, e, t)
      invariant forall e :: e in m ==> m[e] != []
    {
      ghost var before := m;
      NonEmptyThree(m, ts[t], t);
      m := Record(m, ts[t].a, ts[t].b, t);
      m := Record(m, ts[t].b, ts[t].c, t);
      m := Record(m, ts[t].c, ts[t].a, t);
      hide Recorded;
      forall e
        ensures Recorded(m, e) == OwnersTo(ts, e, t + 1)
      {
        RecordThree(before, ts[t], t, e);
      }
    }
  }

  lemma NonEmptyThree(m: OwnerMap, t: Tri, index: nat)
    requires forall e :: e in m ==> m[e] != []
    ensures var m' := Record(Record(Record(m, t.a, t.b, index), t.b, t.c, index), t.c, t.a, index);
            forall e :: e in m' ==> m'[e] != []
  {
  }

  lemma RecordThree(m: OwnerMap, t: Tri, index: nat, e: Edge)
    ensures Recorded(Record(Record(Record(m, t.a, t.b, index), t.b, t.c, index), t.c, t.a, index), e)
         == Recorded(m, e) + OwnersIn(t, index, e)
  {
    var m1 := Record(m, t.a, t.b, index);
    var m2 := Record(m1, t.b, t.c, index);
    RecordOne(m, t.a, t.b, index, e);
    RecordOne(m1, t.b, t.c, index, e);
    RecordOne(m2, t.c, t.a, index, e);
    hide Record, Recorded;
  }

  lemma RecordOne(m: OwnerMap, u: nat, v: nat, index: nat, e: Edge)
    ensures Recorded(Record(m, u, v, index), e) == Recorded(m, e) + (if EdgeOf(u, v) == e then [Owner(index, u < v)] else [])
  {
  }

  /** Exactly two owners for every edge that is used, loops included. */
  ghost predicate Paired(ts: seq<Tri>) {
    forall e :: |Owners(ts, e)| == 0 || |Owners(ts, e)| == 2
  }

  // ---------------------------------------------------------------- from owners to links

  /** The two owners of an edge end up running in opposite directions. */
  predicate Opposed(owners: seq<Owner>, g: seq<bool>)
    requires |owners| == 2 && owners[0].triangle < |g| && owners[1].triangle < |g|
  {
    (owners[0].forward != g[owners[0].triangle]) != (owners[1].forward != g[owners[1].triangle])
  }

  ghost predicate ValidOwners(m: OwnerMap, n: nat) {
    forall e :: e in m ==> |m[e]| == 2 && m[e][0].triangle < n && m[e][1].triangle < n
  }

  ghost predicate AllOpposed(m: OwnerMap, g: seq<bool>)
    requires ValidOwners(m, |g|)
  {
    forall e :: e in m ==> Opposed(m[e], g)
  }

  /** Link l leaves x because of these two owners. */
  predicate LinkOf(owners: seq<Owner>, x: nat, l: Link)
    requires |owners| == 2
  {
    && l.same == (owners[0].forward == owners[1].forward)
    && ((x == owners[0].triangle && l.neighbor == owners[1].triangle)
        || (x == owners[1].triangle && l.neighbor == owners[0].triangle))
  }

  /** `adj` holds the links of the edges in `done`, both ways, and no others. */
  ghost predicate Links(adj: Adjacency, m: OwnerMap, done: set<Edge>)
    requires ValidOwners(m, |adj|) && done <= m.Keys
  {
    && (forall x, l :: 0 <= x < |adj| && l in adj[x] ==> exists e :: e in done && LinkOf(m[e], x, l))
    && (forall x, l, e :: 0 <= x < |adj| && e in done && LinkOf(m[e], x, l) ==> l in adj[x])
  }

  lemma AddLinks(adj: Adjacency, m: OwnerMap, done: set<Edge>, e: Edge, adj': Adjacency)
    requires ValidOwners(m, |adj|) && done <= m.Keys && e in m && Links(adj, m, done) && |adj'| == |adj|
    requires forall x, l :: 0 <= x < |adj| ==> (l in adj'[x] <==> l in adj[x] || LinkOf(m[e], x, l))
    ensures Links(adj', m, done + {e})
  {
    forall x, l | 0 <= x < |adj'| && l in adj'[x]
      ensures exists f :: f in done + {e} && LinkOf(m[f], x, l)
    {
      if l in adj[x] {
        var f :| f in done && LinkOf(m[f], x, l);
        assert f in done + {e};
      } else {
        assert LinkOf(m[e], x, l);
      }
    }
  }

  method BuildAdjacency(m: OwnerMap, n: nat) returns (adj: Adjacency)
    requires ValidOwners(m, n)
    ensures |adj| == n && Links(adj, m, m.Keys)
  {
    adj := seq(n, _ => []);
    var rest := m.Keys;
    while rest != {}
      invariant |adj| == n && rest <= m.Keys && Links(adj, m, m.Keys - rest)
      decreases rest
    {
      var e :| e in rest;
      var left, right := m[e][0], m[e][1];
      var same := left.forward == right.forward;
      ghost var before, done := adj, m.Keys - rest;
      adj := adj[left.triangle := adj[left.triangle] + [Link(right.triangle, same)]];
      adj := adj[right.triangle := adj[right.triangle] + [Link(left.triangle, same)]];
      forall x, l | 0 <= x < n
        ensures l in adj[x] <==> l in before[x] || LinkOf(m[e], x, l)
      {
        AppendedLinks(before, left, right, x, l);
      }
      AddLinks(before, m, done, e, adj);
      rest := rest - {e};
      assert m.Keys - rest == done + {e};
    }
    assert m.Keys - rest == m.Keys;
  }

  lemma AppendedLinks(adj: Adjacency, left: Owner, right: Owner, x: nat, l: Link)
    requires left.triangle < |adj| && right.triangle < |adj| && x < |adj|
    ensures var same := left.forward == right.forward;
            var adj1 := adj[left.triangle := adj[left.triangle] + [Link(right.triangle, same)]];
            var adj2 := adj1[right.triangle := adj1[right.triangle] + [Link(left.triangle, same)]];
            l in adj2[x] <==> l in adj[x] || LinkOf([left, right], x, l)
  {
  }

  lemma LinksWellFormed(adj: Adjacency, m: OwnerMap)
    requires ValidOwners(m, |adj|) && Links(adj, m, m.Keys)
    ensures WellFormed(adj)
  {
    forall x, l | 0 <= x < |adj| && l in adj[x]
      ensures l.neighbor < |adj| && Link(x, l.same) in adj[l.neighbor]
    {
      var e :| e in m.Keys && LinkOf(m[e], x, l);
      assert LinkOf(m[e], l.neighbor, Link(x, l.same));
    }
  }

  /** The links say exactly that every edge is opposed. */
  lemma LinksSayOpposed(adj: Adjacency, m: OwnerMap, g: seq<bool>)
    requires ValidOwners(m, |adj|) && Links(adj, m, m.Keys) && WellFormed(adj) && |g| == |adj|
    ensures Satisfies(adj, g) <==> AllOpposed(m, g)
  {
    if AllOpposed(m, g) {
      forall x, l | 0 <= x < |adj| && l in adj[x]
        ensures g[l.neighbor] == (g[x] != l.same)
      {
        var e :| e in m.Keys && LinkOf(m[e], x, l);
        assert Opposed(m[e], g);
      }
    }
    if Satisfies(adj, g) {
      forall e | e in m
        ensures Opposed(m[e], g)
      {
        var l := Link(m[e][1].triangle, m[e][0].forward == m[e][1].forward);
        assert LinkOf(m[e], m[e][0].triangle, l);
        assert l in adj[m[e][0].triangle];
      }
    }
  }

  // ---------------------------------------------------------------- from opposed owners to coherence

  lemma {:induction false} FlippedUsesTotal(ts: seq<Tri>, flips: seq<bool>, u: nat, v: nat, n: nat)
    requires n <= |ts| == |flips|
    ensures UsesTo(Flipped(ts, flips), u, v, n) + UsesTo(Flipped(ts, flips), v, u, n) == UsesTo(ts, u, v, n) + UsesTo(ts, v, u, n)
    decreases n
  {
    hide TriUses;
    if n > 0 {
      FlippedUsesTotal(ts, flips, u, v, n - 1);
      FlipUses(ts[n - 1], u, v);
      FlipUses(ts[n - 1], v, u);
    }
  }

  lemma ForwardOfTwo(owners: seq<Owner>, g: seq<bool>)
    requires |owners| == 2 && owners[0].triangle < |g| && owners[1].triangle < |g|
    ensures ForwardAfter(owners, g) == One(owners[0].forward != g[owners[0].triangle]) + One(owners[1].forward != g[owners[1].triangle])
  {
    assert owners[..1][..0] == [];
    assert ForwardAfter(owners[..1], g) == One(owners[0].forward != g[owners[0].triangle]);
  }

  /** On one edge, running once each way is being opposed. */
  lemma EdgeCoherent(ts: seq<Tri>, g: seq<bool>, u: nat, v: nat)
    requires |g| == |ts| && u < v && (|Owners(ts, Edge(u, v))| == 0 || |Owners(ts, Edge(u, v))| == 2)
    ensures forall k :: 0 <= k < |Owners(ts, Edge(u, v))| ==> Owners(ts, Edge(u, v))[k].triangle < |g|
    ensures Uses(Flipped(ts, g), u, v) == Uses(Flipped(ts, g), v, u) <= 1
       <==> (Owners(ts, Edge(u, v)) == [] || Opposed(Owners(ts, Edge(u, v)), g))
  {
    OwnersAreUses(ts, g, u, v, |ts|);
    FlippedUsesTotal(ts, g, u, v, |ts|);
    hide UsesTo, Flipped;
    var owners := Owners(ts, Edge(u, v));
    if |owners| == 2 {
      ForwardOfTwo(owners, g);
    }
  }

  /** Opposed owners make the flipped mesh coherent, loops or not. */
  lemma OpposedIsCoherent(ts: seq<Tri>, m: OwnerMap, g: seq<bool>)
    requires |g| == |ts| && ValidOwners(m, |g|) && (forall e :: Recorded(m, e) == Owners(ts, e)) && AllOpposed(m, g)
    ensures Coherent(Flipped(ts, g))
  {
    hide Uses, Owners, Opposed;
    forall u: nat, v: nat | u != v
      ensures Uses(Flipped(ts, g), u, v) == Uses(Flipped(ts, g), v, u) <= 1
    {
      var e := EdgeOf(u, v);
      assert Recorded(m, e) == Owners(ts, e);
      EdgeCoherent(ts, g, e.low, e.high);
    }
  }

  /** Without loops a coherent choice of flips opposes every edge. */
  lemma CoherentIsOpposed(ts: seq<Tri>, m: OwnerMap, g: seq<bool>)
    requires |g| == |ts| && ValidOwners(m, |g|) && (forall e :: Recorded(m, e) == Owners(ts, e))
    requires NoLoops(ts) && Coherent(Flipped(ts, g))
    ensures AllOpposed(m, g)
  {
    hide Uses, Owners, Opposed;
    forall e | e in m
      ensures Opposed(m[e], g)
    {
      assert Recorded(m, e) == Owners(ts, e) && m[e] != [];
      OwnedEdge(ts, e);
      assert Uses(Flipped(ts, g), e.low, e.high) == Uses(Flipped(ts, g), e.high, e.low) <= 1;
      EdgeCoherent(ts, g, e.low, e.high);
    }
  }

  /** An edge with owners joins two different vertices, smaller first. */
  lemma OwnedEdge(ts: seq<Tri>, e: Edge)
    requires NoLoops(ts) && Owners(ts, e) != []
    ensures e.low < e.high
  {
    OwnedEdgeTo(ts, e, |ts|);
  }

  lemma {:induction false} OwnedEdgeTo(ts: seq<Tri>, e: Edge, n: nat)
    requires NoLoops(ts) && n <= |ts| && OwnersTo(ts, e, n) != []
    ensures e.low < e.high
    decreases n
  {
    if OwnersIn(ts[n - 1], n - 1, e) == [] {
      assert OwnersTo(ts, e, n) == OwnersTo(ts, e, n - 1);
      OwnedEdgeTo(ts, e, n - 1);
    }
  }

  /** Without loops, pairing is being a two-manifold. */
  lemma PairedIsManifold(ts: seq<Tri>)
    requires NoLoops(ts)
    ensures Paired(ts) <==> TwoManifold(ts)
  {
    hide NoLoops;
    var none := seq(|ts|, _ => false);
    forall u: nat, v: nat | u < v
      ensures |Owners(ts, Edge(u, v))| == Uses(ts, u, v) + Uses(ts, v, u)
    {
      OwnersAreUses(ts, none, u, v, |ts|);
    }
    hide Uses, Owners;
    if TwoManifold(ts) {
      forall e
        ensures |Owners(ts, e)| == 0 || |Owners(ts, e)| == 2
      {
        if Owners(ts, e) != [] {
          OwnedEdge(ts, e);
          assert e == Edge(e.low, e.high);
          assert |Owners(ts, Edge(e.low, e.high))| == Uses(ts, e.low, e.high) + Uses(ts, e.high, e.low);
        }
      }
    }
    if Paired(ts) {
      forall u: nat, v: nat | u != v && Uses(ts, u, v) + Uses(ts, v, u) > 0
        ensures Uses(ts, u, v) + Uses(ts, v, u) == 2
      {
        var e := EdgeOf(u, v);
        assert |Owners(ts, Edge(e.low, e.high))| == Uses(ts, e.low, e.high) + Uses(ts, e.high, e.low);
      }
    }
  }

  lemma {:induction false} LoopOwners(ts: seq<Tri>, u: nat, n: nat)
    requires n <= |ts|
    ensures |OwnersTo(ts, Edge(u, u), n)| == UsesTo(ts, u, u, n)
    decreases n
  {
    if n > 0 {
      LoopOwners(ts, u, n - 1);
    }
  }

  lemma {:induction false} UnorderedUnowned(ts: seq<Tri>, e: Edge, n: nat)
    requires e.low > e.high && n <= |ts|
    ensures OwnersTo(ts, e, n) == []
    decreases n
  {
    if n > 0 {
      UnorderedUnowned(ts, e, n - 1);
    }
  }

  lemma OwnersCounted(ts: seq<Tri>, e: Edge)
    ensures |Owners(ts, e)| == if e.low > e.high then 0 else EdgeUses(ts, e.low, e.high)
  {
    if e.low < e.high {
      OwnersAreUses(ts, seq(|ts|, _ => false), e.low, e.high, |ts|);
      assert e == Edge(e.low, e.high);
    } else if e.low == e.high {
      LoopOwners(ts, e.low, |ts|);
      assert e == Edge(e.low, e.low);
    } else {
      UnorderedUnowned(ts, e, |ts|);
    }
  }

  /** Two owners for every edge means two uses, degenerate edges included. */
  lemma PairedExactly(ts: seq<Tri>)
    ensures Paired(ts) <==> EveryEdgeTwice(ts)
  {
    forall e
      ensures |Owners(ts, e)| == if e.low > e.high then 0 else EdgeUses(ts, e.low, e.high)
    {
      OwnersCounted(ts, e);
    }
    hide Owners;
    if Paired(ts) {
      forall u: nat, v: nat
        ensures EdgeUses(ts, u, v) == 0 || EdgeUses(ts, u, v) == 2
      {
        var e := Edge(if u < v then u else v, if u < v then v else u);
        assert |Owners(ts, e)| == EdgeUses(ts, e.low, e.high);
        assert EdgeUses(ts, e.low, e.high) == EdgeUses(ts, u, v);
      }
    }
  }

  // ---------------------------------------------------------------- the whole operation

  datatype Outcome = Oriented | NotClosed | Contradictory

  ghost predicate Orientable(ts: seq<Tri>) {
    exists g: seq<bool> :: |g| == |ts| && Coherent(Flipped(ts, g))
  }

  /** On a normal return the mesh is coherent and every triangle was only kept
      or turned over. Without loops the refusals are exact: `NotClosed` when
      some edge does not have two owners, `Contradictory` when the mesh is
      closed and no choice of flips is coherent. */
  method OrientConsistently(triangles: array<Tri>) returns (outcome: Outcome)
    modifies triangles
    ensures outcome == Oriented ==> Coherent(triangles[..])
    ensures outcome == Oriented ==> exists g :: |g| == triangles.Length && triangles[..] == Flipped(old(triangles[..]), g)
    ensures outcome != Oriented ==> triangles[..] == old(triangles[..])
    ensures outcome == NotClosed <==> !EveryEdgeTwice(old(triangles[..]))
    ensures NoLoops(old(triangles[..])) ==> (outcome == NotClosed <==> !TwoManifold(old(triangles[..])))
    ensures NoLoops(old(triangles[..])) ==>
              (outcome == Contradictory <==> TwoManifold(old(triangles[..])) && !Orientable(old(triangles[..])))
  {
    hide Coherent, TwoManifold, Opposed, Owners, Satisfies, NoLoops, EveryEdgeTwice;
    var ts := triangles[..];
    PairedExactly(ts);
    var m := CollectOwners(ts);
    if NoLoops(ts) {
      PairedIsManifold(ts);
    }
    if exists e :: e in m && |m[e]| != 2 {
      ghost var e :| e in m && |m[e]| != 2;
      assert |Owners(ts, e)| == |Recorded(m, e)|;
      return NotClosed;
    }
    assert Paired(ts) by {
      forall e
        ensures |Owners(ts, e)| == 0 || |Owners(ts, e)| == 2
      {
        assert Recorded(m, e) == Owners(ts, e);
      }
    }
    OwnersValid(ts, m);
    var adj := BuildAdjacency(m, |ts|);
    LinksWellFormed(adj, m);
    var flips := Propagate(adj);
    if flips.None? {
      if NoLoops(ts) {
        NotOrientable(ts, m, adj);
      }
      return Contradictory;
    }
    LinksSayOpposed(adj, m, flips.value);
    OpposedIsCoherent(ts, m, flips.value);
    for t := 0 to triangles.Length
      invariant forall i :: 0 <= i < t ==> triangles[i] == Flipped(ts, flips.value)[i]
      invariant forall i :: t <= i < triangles.Length ==> triangles[i] == ts[i]
    {
      if flips.value[t] {
        triangles[t] := triangles[t].Flip();
      }
    }
    assert triangles[..] == Flipped(ts, flips.value);
    return Oriented;
  }

  lemma OwnersValid(ts: seq<Tri>, m: OwnerMap)
    requires (forall e :: Recorded(m, e) == Owners(ts, e)) && (forall e :: e in m ==> |m[e]| == 2)
    ensures ValidOwners(m, |ts|)
  {
    forall e | e in m
      ensures m[e][0].triangle < |ts| && m[e][1].triangle < |ts|
    {
      assert Recorded(m, e) == Owners(ts, e);
      OwnersInRange(ts, e, |ts|);
    }
  }

  lemma NotOrientable(ts: seq<Tri>, m: OwnerMap, adj: Adjacency)
    requires NoLoops(ts) && |adj| == |ts| && ValidOwners(m, |ts|) && (forall e :: Recorded(m, e) == Owners(ts, e))
    requires Links(adj, m, m.Keys) && WellFormed(adj)
    requires forall g :: |g| == |adj| ==> !Satisfies(adj, g)
    ensures !Orientable(ts)
  {
    hide Coherent, NoLoops, Satisfies, Owners, Links, AllOpposed;
    forall g: seq<bool> | |g| == |ts|
      ensures !Coherent(Flipped(ts, g))
    {
      if Coherent(Flipped(ts, g)) {
        CoherentIsOpposed(ts, m, g);
        LinksSayOpposed(adj, m, g);
      }
    }
  }
}
