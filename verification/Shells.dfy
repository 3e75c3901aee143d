/** Splitting triangles into shells that share edges, and compacting a shell. */
module Shells {
  import opened Mesh
  import opened Linalg

  // ---------------------------------------------------------------- connectivity

  predicate HasEdge(t: Tri, e: Edge) {
    EdgeOf(t.a, t.b) == e || EdgeOf(t.b, t.c) == e || EdgeOf(t.c, t.a) == e
  }

  /** Two triangles with a common edge. */
  ghost predicate Shares(ts: seq<Tri>, x: nat, y: nat) {
    x < |ts| && y < |ts| && exists e :: HasEdge(ts[x], e) && HasEdge(ts[y], e)
  }

  /** A walk over shared edges. */
  ghost predicate Walk(ts: seq<Tri>, path: seq<nat>) {
    && |path| > 0
    && (forall k :: 0 <= k < |path| ==> path[k] < |ts|)
    && forall k :: 0 <= k < |path| - 1 ==> Shares(ts, path[k], path[k + 1])
  }

  ghost predicate Connected(ts: seq<Tri>, x: nat, y: nat) {
    exists path :: Walk(ts, path) && path[0] == x && path[|path| - 1] == y
  }

  lemma ConnectedSelf(ts: seq<Tri>, x: nat)
    requires x < |ts|
    ensures Connected(ts, x, x)
  {
    assert Walk(ts, [x]);
  }

  lemma ConnectedStep(ts: seq<Tri>, x: nat, y: nat, z: nat)
    requires Connected(ts, x, y) && Shares(ts, y, z)
    ensures Connected(ts, x, z)
  {
    var path :| Walk(ts, path) && path[0] == x && path[|path| - 1] == y;
    var longer := path + [z];
    assert Walk(ts, longer) && longer[0] == x && longer[|longer| - 1] == z;
  }

  lemma ConnectedBetween(ts: seq<Tri>, s: nat, x: nat, y: nat)
    requires Connected(ts, s, x) && Connected(ts, s, y)
    ensures Connected(ts, x, y)
  {
    var p :| Walk(ts, p) && p[0] == s && p[|p| - 1] == x;
    var q :| Walk(ts, q) && q[0] == s && q[|q| - 1] == y;
    var back := seq(|p|, k requires 0 <= k < |p| => p[|p| - 1 - k]);
    forall k | 0 <= k < |back| - 1
      ensures Shares(ts, back[k], back[k + 1])
    {
      assert Shares(ts, p[|p| - 2 - k], p[|p| - 2 - k + 1]);
    }
    assert Walk(ts, back);
    var path := back + q[1..];
    forall k | 0 <= k < |path| - 1
      ensures Shares(ts, path[k], path[k + 1])
    {
      if k >= |back| - 1 {
        var j := k - (|back| - 1);
        assert path[k] == q[j] && path[k + 1] == q[j + 1];
      }
    }
    assert Walk(ts, path) && path[0] == x && path[|path| - 1] == y;
  }

  /** A set of triangles that no shared edge leaves. */
  ghost predicate Closed(ts: seq<Tri>, c: seq<nat>) {
    forall x: nat, y: nat :: x in c && Shares(ts, x, y) ==> y in c
  }

  lemma {:induction false} WalkStays(ts: seq<Tri>, c: seq<nat>, path: seq<nat>, k: nat)
    requires Closed(ts, c) && Walk(ts, path) && path[0] in c && k < |path|
    ensures path[k] in c
    decreases k
  {
    if k > 0 {
      WalkStays(ts, c, path, k - 1);
      assert Shares(ts, path[k - 1], path[k - 1 + 1]);
    }
  }

  // ---------------------------------------------------------------- classes

  ghost predicate Together(classes: seq<seq<nat>>, x: nat, y: nat) {
    exists c :: c in classes && x in c && y in c
  }

  function Flat(classes: seq<seq<nat>>): seq<nat> {
    if |classes| == 0 then [] else Flat(classes[..|classes| - 1]) + classes[|classes| - 1]
  }

  /** Every index below n occurs once, in one class. */
  ghost predicate Partition(classes: seq<seq<nat>>, n: nat) {
    forall x: nat :: multiset(Flat(classes))[x] == if x < n then 1 else 0
  }

  /** The classes are exactly the connected components. */
  ghost predicate Components(ts: seq<Tri>, classes: seq<seq<nat>>) {
    forall x, y :: 0 <= x < |ts| && 0 <= y < |ts| ==> (Together(classes, x, y) <==> Connected(ts, x, y))
  }

  /** Each class is connected and closed. */
  ghost predicate GoodClass(ts: seq<Tri>, c: seq<nat>) {
    && (forall x :: x in c ==> x < |ts|)
    && Closed(ts, c)
    && forall x, y :: x in c && y in c ==> Connected(ts, x, y)
  }

  lemma {:induction false} FlatMember(classes: seq<seq<nat>>, x: nat)
    ensures x in Flat(classes) <==> exists c :: c in classes && x in c
    decreases |classes|
  {
    if |classes| > 0 {
      var n := |classes| - 1;
      FlatMember(classes[..n], x);
      assert classes == classes[..n] + [classes[n]];
      if exists c :: c in classes && x in c {
        var c :| c in classes && x in c;
        assert c in classes[..n] || c == classes[n];
      }
    }
  }

  lemma ClassesAreComponents(ts: seq<Tri>, classes: seq<seq<nat>>)
    requires Partition(classes, |ts|) && forall c :: c in classes ==> GoodClass(ts, c)
    ensures Components(ts, classes)
  {
    forall x, y | 0 <= x < |ts| && 0 <= y < |ts|
      ensures Together(classes, x, y) <==> Connected(ts, x, y)
    {
      if Connected(ts, x, y) {
        assert multiset(Flat(classes))[x] == 1;
        assert x in multiset(Flat(classes));
        FlatMember(classes, x);
        var c :| c in classes && x in c;
        var path :| Walk(ts, path) && path[0] == x && path[|path| - 1] == y;
        assert GoodClass(ts, c);
        WalkStays(ts, c, path, |path| - 1);
      }
      if Together(classes, x, y) {
        var c :| c in classes && x in c && y in c;
        assert GoodClass(ts, c);
      }
    }
  }

  // ---------------------------------------------------------------- adjacency

  type EdgeMap = map<Edge, seq<nat>>

  /** Triangle t is recorded under edge e. */
  predicate Listed(m: EdgeMap, e: Edge, t: nat) {
    e in m && t in m[e]
  }

  function AddUser(m: EdgeMap, e: Edge, t: nat): (r: EdgeMap)
    ensures forall f, u: nat :: Listed(r, f, u) <==> Listed(m, f, u) || (f == e && u == t)
  {
    m[e := (if e in m then m[e] else []) + [t]]
  }

  /** The triangles that use each edge. */
  method CollectUsers(ts: seq<Tri>) returns (m: EdgeMap)
    ensures forall e, t: nat :: Listed(m, e, t) <==> t < |ts| && HasEdge(ts[t], e)
  {
    m := map[];
    for i := 0 to |ts|
      invariant forall e, t: nat :: Listed(m, e, t) <==> t < i && HasEdge(ts[t], e)
    {
      m := AddUser(m, EdgeOf(ts[i].a, ts[i].b), i);
      m := AddUser(m, EdgeOf(ts[i].b, ts[i].c), i);
      m := AddUser(m, EdgeOf(ts[i].c, ts[i].a), i);
    }
  }

  predicate Adjacent(adj: seq<seq<nat>>, x: nat, y: nat) {
    x < |adj| && y in adj[x]
  }

  /** Different triangles are adjacent exactly when they share an edge. */
  ghost predicate Neighbors(ts: seq<Tri>, adj: seq<seq<nat>>) {
    && |adj| == |ts|
    && (forall x: nat, y: nat :: Adjacent(adj, x, y) ==> Shares(ts, x, y))
    && (forall x: nat, y: nat :: x != y && Shares(ts, x, y) ==> Adjacent(adj, x, y))
  }

  function AddBoth(adj: seq<seq<nat>>, x: nat, y: nat): (r: seq<seq<nat>>)
    requires x < |adj| && y < |adj|
    ensures |r| == |adj|
    ensures forall z: nat, w: nat :: Adjacent(r, z, w) <==> Adjacent(adj, z, w) || (z == x && w == y) || (z == y && w == x)
  {
    var one := adj[x := adj[x] + [y]];
    one[y := one[y] + [x]]
  }

  /** Links every pair of users of one edge, both ways. */
  method LinkUsers(users: seq<nat>, before: seq<seq<nat>>) returns (adj: seq<seq<nat>>)
    requires forall k :: 0 <= k < |users| ==> users[k] < |before|
    ensures |adj| == |before|
    ensures forall x: nat, y: nat :: Adjacent(before, x, y) ==> Adjacent(adj, x, y)
    ensures forall x: nat, y: nat :: Adjacent(adj, x, y) ==> Adjacent(before, x, y) || (x in users && y in users)
    ensures forall x: nat, y: nat :: x in users && y in users && x != y ==> Adjacent(adj, x, y)
  {
    hide Adjacent;
    adj := before;
    for i := 0 to |users|
      invariant |adj| == |before|
      invariant forall x: nat, y: nat :: Adjacent(before, x, y) ==> Adjacent(adj, x, y)
      invariant forall x: nat, y: nat :: Adjacent(adj, x, y) ==> Adjacent(before, x, y) || (x in users && y in users)
      invariant forall k, l :: 0 <= k < i && k < l < |users| ==> Adjacent(adj, users[k], users[l]) && Adjacent(adj, users[l], users[k])
    {
      for j := i + 1 to |users|
        invariant |adj| == |before|
        invariant forall x: nat, y: nat :: Adjacent(before, x, y) ==> Adjacent(adj, x, y)
        invariant forall x: nat, y: nat :: Adjacent(adj, x, y) ==> Adjacent(before, x, y) || (x in users && y in users)
        invariant forall k, l :: 0 <= k < i && k < l < |users| ==> Adjacent(adj, users[k], users[l]) && Adjacent(adj, users[l], users[k])
        invariant forall l :: i < l < j ==> Adjacent(adj, users[i], users[l]) && Adjacent(adj, users[l], users[i])
      {
        adj := AddBoth(adj, users[i], users[j]);
      }
    }
    forall x: nat, y: nat | x in users && y in users && x != y
      ensures Adjacent(adj, x, y)
    {
      var k :| 0 <= k < |users| && users[k] == x;
      var l :| 0 <= l < |users| && users[l] == y;
      assert k < l ==> Adjacent(adj, users[k], users[l]);
      assert l < k ==> Adjacent(adj, users[k], users[l]);
    }
  }

  method BuildNeighbors(ts: seq<Tri>) returns (adj: seq<seq<nat>>)
    ensures Neighbors(ts, adj)
  {
    hide Adjacent, HasEdge;
    var m := CollectUsers(ts);
    adj := seq(|ts|, _ => []);
    NoneAdjacent(adj);
    var rest := m.Keys;
    while rest != {}
      invariant |adj| == |ts| && rest <= m.Keys
      invariant forall x: nat, y: nat :: Adjacent(adj, x, y) ==> Shares(ts, x, y)
      invariant forall e, x: nat, y: nat :: e !in rest && Listed(m, e, x) && Listed(m, e, y) && x != y ==> Adjacent(adj, x, y)
      decreases rest
    {
      var e :| e in rest;
      ghost var before := adj;
      assert forall k :: 0 <= k < |m[e]| ==> Listed(m, e, m[e][k]);
      adj := LinkUsers(m[e], adj);
      forall x: nat, y: nat | Adjacent(adj, x, y)
        ensures Shares(ts, x, y)
      {
        if !Adjacent(before, x, y) {
          assert Listed(m, e, x) && Listed(m, e, y);
        }
      }
      rest := rest - {e};
    }
    forall x: nat, y: nat | x != y && Shares(ts, x, y)
      ensures Adjacent(adj, x, y)
    {
      var e :| HasEdge(ts[x], e) && HasEdge(ts[y], e);
      assert Listed(m, e, x) && Listed(m, e, y);
    }
  }

  lemma NoneAdjacent(adj: seq<seq<nat>>)
    requires forall x :: 0 <= x < |adj| ==> adj[x] == []
    ensures forall x: nat, y: nat :: !Adjacent(adj, x, y)
  {
  }

  // ---------------------------------------------------------------- breadth-first search

  function InsertNat(x: nat, xs: seq<nat>): (r: seq<nat>)
    ensures multiset(r) == multiset(xs) + multiset{x}
  {
    if |xs| == 0 then [x]
    else if x < xs[0] then [x] + xs
    else
      assert xs == [xs[0]] + xs[1..];
      [xs[0]] + InsertNat(x, xs[1..])
  }

  function SortNats(xs: seq<nat>): (r: seq<nat>)
    ensures multiset(r) == multiset(xs)
  {
    if |xs| == 0 then []
    else
      assert xs == [xs[0]] + xs[1..];
      InsertNat(xs[0], SortNats(xs[1..]))
  }

  lemma SortedMembers(xs: seq<nat>)
    ensures forall x :: x in SortNats(xs) <==> x in xs
  {
    forall x
      ensures x in SortNats(xs) <==> x in xs
    {
      assert x in SortNats(xs) <==> x in multiset(SortNats(xs));
      assert x in xs <==> x in multiset(xs);
    }
  }

  ghost function Unvisited(visited: seq<bool>): set<nat> {
    set x | 0 <= x < |visited| && !visited[x]
  }

  /** What was visited before this search, and stays closed. */
  ghost predicate Before(ts: seq<Tri>, before: seq<bool>) {
    |before| == |ts| && forall x: nat, y: nat :: x < |ts| && before[x] && Shares(ts, x, y) ==> before[y]
  }

  /** The search from one triangle: `reached` lists, once each, the triangles
      visited since it began, all connected to the start. */
  ghost predicate Reached(ts: seq<Tri>, before: seq<bool>, visited: seq<bool>, start: nat, reached: seq<nat>) {
    && |before| == |visited| == |ts|
    && start < |ts| && !before[start] && visited[start]
    && (forall x: nat :: multiset(reached)[x] == if x < |ts| && visited[x] && !before[x] then 1 else 0)
    && (forall x :: 0 <= x < |ts| && before[x] ==> visited[x])
    && (forall x :: x in reached ==> x < |ts| && Connected(ts, start, x))
  }

  /** Every neighbour of a finished triangle is visited. */
  ghost predicate Finished(ts: seq<Tri>, visited: seq<bool>, shell: seq<nat>) {
    |visited| == |ts| && forall x: nat, y: nat :: x in shell && Shares(ts, x, y) ==> visited[y]
  }

  lemma ReachOne(ts: seq<Tri>, before: seq<bool>, visited: seq<bool>, start: nat, reached: seq<nat>, x: nat, y: nat)
    requires Reached(ts, before, visited, start, reached) && x in reached && Shares(ts, x, y) && !visited[y]
    ensures Reached(ts, before, visited[y := true], start, reached + [y])
  {
    ConnectedStep(ts, start, x, y);
    hide Connected, Shares;
    assert multiset(reached + [y]) == multiset(reached) + multiset{y};
    assert forall z :: z in reached + [y] ==> z in reached || z == y;
  }

  /** Visits the neighbours of `current` and queues the new ones. */
  method VisitNeighbors(ts: seq<Tri>, adj: seq<seq<nat>>, current: nat, visited0: seq<bool>, queue0: seq<nat>,
                        ghost before: seq<bool>, ghost start: nat, ghost shell: seq<nat>)
    returns (visited: seq<bool>, queue: seq<nat>)
    requires Neighbors(ts, adj) && current in shell && current < |ts|
    requires Reached(ts, before, visited0, start, shell + queue0)
    ensures Reached(ts, before, visited, start, shell + queue)
    ensures forall x :: 0 <= x < |ts| && visited0[x] ==> visited[x]
    ensures Finished(ts, visited, [current])
    ensures Unvisited(visited) <= Unvisited(visited0)
    ensures |queue| == |queue0| || Unvisited(visited) < Unvisited(visited0)
  {
    hide Reached, Unvisited, SortNats;
    visited, queue := visited0, queue0;
    var sorted := SortNats(adj[current]);
    SortedMembers(adj[current]);
    ReachedSize(ts, before, visited, start, shell + queue);
    forall i | 0 <= i < |sorted|
      ensures sorted[i] < |ts| && Shares(ts, current, sorted[i])
    {
      assert Adjacent(adj, current, sorted[i]);
    }
    for k := 0 to |sorted|
      invariant |visited| == |ts| && Reached(ts, before, visited, start, shell + queue)
      invariant forall x :: 0 <= x < |ts| && visited0[x] ==> visited[x]
      invariant forall i :: 0 <= i < k ==> visited[sorted[i]]
      invariant Unvisited(visited) <= Unvisited(visited0)
      invariant |queue| == |queue0| || Unvisited(visited) < Unvisited(visited0)
    {
      hide Shares;
      var y := sorted[k];
      if !visited[y] {
        ReachOne(ts, before, visited, start, shell + queue, current, y);
        FewerUnvisited(visited, y);
        assert shell + queue + [y] == shell + (queue + [y]);
        visited := visited[y := true];
        queue := queue + [y];
      }
    }
    CurrentVisited(ts, before, visited, start, shell + queue, current);
    forall y: nat | Shares(ts, current, y)
      ensures visited[y]
    {
      if y != current {
        assert Adjacent(adj, current, y);
        assert y in sorted;
      }
    }
  }

  lemma FewerUnvisited(visited: seq<bool>, y: nat)
    requires y < |visited| && !visited[y]
    ensures Unvisited(visited[y := true]) < Unvisited(visited)
  {
    assert y in Unvisited(visited) && y !in Unvisited(visited[y := true]);
  }

  lemma CurrentVisited(ts: seq<Tri>, before: seq<bool>, visited: seq<bool>, start: nat, reached: seq<nat>, x: nat)
    requires Reached(ts, before, visited, start, reached) && x in reached
    ensures x < |ts| && visited[x]
  {
    assert x in multiset(reached);
  }

  /** One shell: everything connected to `start`. */
  method Collect(ts: seq<Tri>, adj: seq<seq<nat>>, start: nat, before: seq<bool>) returns (visited: seq<bool>, shell: seq<nat>)
    requires Neighbors(ts, adj) && Before(ts, before) && start < |ts| && !before[start]
    ensures Reached(ts, before, visited, start, shell) && Finished(ts, visited, shell)
  {
    hide Neighbors, Shares, Connected;
    visited := before[start := true];
    var queue := [start];
    shell := [];
    ConnectedSelf(ts, start);
    assert shell + queue == [start];
    while |queue| > 0
      invariant Reached(ts, before, visited, start, shell + queue)
      invariant Finished(ts, visited, shell)
      decreases Unvisited(visited), |queue|
    {
      var current := queue[0];
      ghost var seen := visited;
      assert current in shell + queue;
      assert shell + queue == (shell + [current]) + queue[1..];
      CurrentVisited(ts, before, visited, start, shell + queue, current);
      hide Reached;
      shell := shell + [current];
      hide Finished;
      visited, queue := VisitNeighbors(ts, adj, current, visited, queue[1..], before, start, shell);
      ReachedSize(ts, before, visited, start, shell + queue);
      FinishedGrows(ts, seen, visited, shell[..|shell| - 1], current);
    }
    assert shell + queue == shell;
  }

  lemma FinishedGrows(ts: seq<Tri>, seen: seq<bool>, visited: seq<bool>, shell: seq<nat>, current: nat)
    requires Finished(ts, seen, shell) && Finished(ts, visited, [current])
    requires forall x :: 0 <= x < |ts| && seen[x] ==> visited[x]
    ensures Finished(ts, visited, shell + [current])
  {
    forall x: nat, y: nat | x in shell + [current] && Shares(ts, x, y)
      ensures visited[y]
    {
      assert x in shell || x in [current];
    }
  }

  lemma ReachedSize(ts: seq<Tri>, before: seq<bool>, visited: seq<bool>, start: nat, reached: seq<nat>)
    requires Reached(ts, before, visited, start, reached)
    ensures |visited| == |ts|
  {
  }

  /** A finished search yields a connected closed class and extends what is closed. */
  lemma ShellIsGood(ts: seq<Tri>, before: seq<bool>, visited: seq<bool>, start: nat, shell: seq<nat>)
    requires Before(ts, before) && Reached(ts, before, visited, start, shell) && Finished(ts, visited, shell)
    ensures GoodClass(ts, shell) && Before(ts, visited)
  {
    forall x: nat, y: nat | x in shell && Shares(ts, x, y)
      ensures y in shell
    {
      CurrentVisited(ts, before, visited, start, shell, x);
      assert multiset(shell)[x] == 1;
      assert Shares(ts, y, x);
      assert !before[y];
      assert multiset(shell)[y] == 1;
    }
    forall x, y | x in shell && y in shell
      ensures Connected(ts, x, y)
    {
      ConnectedBetween(ts, start, x, y);
    }
    forall x: nat, y: nat | x < |ts| && visited[x] && Shares(ts, x, y)
      ensures visited[y]
    {
      if !before[x] {
        assert multiset(shell)[x] == 1;
        assert x in shell;
      }
    }
  }

  /** The connected components of the triangles, in order of discovery. */
  method FindShells(ts: seq<Tri>) returns (classes: seq<seq<nat>>)
    ensures Partition(classes, |ts|) && Components(ts, classes)
    ensures forall c :: c in classes ==> GoodClass(ts, c) && c != []
  {
    var adj := BuildNeighbors(ts);
    hide Neighbors, Shares, Connected, GoodClass, Reached, Finished;
    var visited := seq(|ts|, _ => false);
    classes := [];
    for start := 0 to |ts|
      invariant Before(ts, visited)
      invariant forall x :: 0 <= x < start ==> visited[x]
      invariant forall x: nat :: multiset(Flat(classes))[x] == if x < |ts| && visited[x] then 1 else 0
      invariant forall c :: c in classes ==> GoodClass(ts, c) && c != []
    {
      if !visited[start] {
        ghost var before := visited;
        var shell;
        visited, shell := Collect(ts, adj, start, visited);
        ShellIsGood(ts, before, visited, start, shell);
        AppendClass(ts, before, visited, start, classes, shell);
        classes := classes + [shell];
      }
    }
    ClassesAreComponents(ts, classes);
  }

  lemma AppendClass(ts: seq<Tri>, before: seq<bool>, visited: seq<bool>, start: nat, classes: seq<seq<nat>>, shell: seq<nat>)
    requires Reached(ts, before, visited, start, shell)
    requires forall x: nat :: multiset(Flat(classes))[x] == if x < |ts| && before[x] then 1 else 0
    ensures |visited| == |ts| && visited[start] && shell != []
    ensures forall x :: 0 <= x < |ts| && before[x] ==> visited[x]
    ensures forall x: nat :: multiset(Flat(classes + [shell]))[x] == if x < |ts| && visited[x] then 1 else 0
  {
    assert (classes + [shell])[..|classes|] == classes;
    assert multiset(Flat(classes + [shell])) == multiset(Flat(classes)) + multiset(shell);
    assert multiset(shell)[start] == 1;
    assert start in shell;
  }

  // ---------------------------------------------------------------- shells in order

  function Pick(ts: seq<Tri>, c: seq<nat>): (shell: seq<Tri>)
    requires forall k :: 0 <= k < |c| ==> c[k] < |ts|
    ensures |shell| == |c|
  {
    seq(|c|, k requires 0 <= k < |c| => ts[c[k]])
  }

  function Min(a: nat, b: nat): nat {
    if a < b then a else b
  }

  /** The smallest vertex of a shell; zero when it is empty. */
  function MinVertex(shell: seq<Tri>): nat {
    if |shell| == 0 then 0
    else
      var t := shell[|shell| - 1];
      var own := Min(t.a, Min(t.b, t.c));
      if |shell| == 1 then own else Min(MinVertex(shell[..|shell| - 1]), own)
  }

  /** It is a corner of the shell, and no corner is smaller. */
  lemma {:induction false} MinVertexLeast(shell: seq<Tri>)
    requires |shell| > 0
    ensures Touched(shell, MinVertex(shell))
    ensures forall v: nat :: Touched(shell, v) ==> MinVertex(shell) <= v
    decreases |shell|
  {
    var n := |shell| - 1;
    var (rest, t) := (shell[..n], shell[n]);
    var own := Min(t.a, Min(t.b, t.c));
    assert HasCorner(t, own) && MinVertex(shell) == if n == 0 then own else Min(MinVertex(rest), own);
    if n > 0 {
      MinVertexLeast(rest);
      var x :| 0 <= x < n && HasCorner(rest[x], MinVertex(rest));
      assert HasCorner(shell[x], MinVertex(rest));
    }
    forall v: nat | Touched(shell, v)
      ensures MinVertex(shell) <= v
    {
      var x :| 0 <= x < |shell| && HasCorner(shell[x], v);
      if x < n {
        assert HasCorner(rest[x], v);
        assert Touched(rest, v);
      }
    }
  }

  ghost predicate InRangeClass(ts: seq<Tri>, c: seq<nat>) {
    forall k :: 0 <= k < |c| ==> c[k] < |ts|
  }

  ghost predicate InRangeClasses(ts: seq<Tri>, classes: seq<seq<nat>>) {
    forall i :: 0 <= i < |classes| ==> InRangeClass(ts, classes[i])
  }

  function Key(ts: seq<Tri>, c: seq<nat>): nat
    requires InRangeClass(ts, c)
  {
    MinVertex(Pick(ts, c))
  }

  ghost predicate Ordered(ts: seq<Tri>, classes: seq<seq<nat>>)
    requires InRangeClasses(ts, classes)
  {
    forall i, j :: 0 <= i < j < |classes| ==> Key(ts, classes[i]) <= Key(ts, classes[j])
  }

  function InsertClass(ts: seq<Tri>, c: seq<nat>, classes: seq<seq<nat>>): (r: seq<seq<nat>>)
    requires InRangeClass(ts, c) && InRangeClasses(ts, classes)
    ensures multiset(r) == multiset(classes) + multiset{c}
    ensures InRangeClasses(ts, r)
    ensures multiset(Flat(r)) == multiset(Flat(classes)) + multiset(c)
  {
    if |classes| == 0 then
      assert [c][..0] == [];
      [c]
    else
      var n := |classes| - 1;
      var last := classes[n];
      assert classes == classes[..n] + [last];
      if Key(ts, c) < Key(ts, last) then
        var r := InsertClass(ts, c, classes[..n]) + [last];
        assert r[..|r| - 1] == InsertClass(ts, c, classes[..n]);
        r
      else
        assert (classes + [c])[..|classes|] == classes;
        classes + [c]
  }

  lemma OrderedAppend(ts: seq<Tri>, classes: seq<seq<nat>>, c: seq<nat>)
    requires InRangeClass(ts, c) && InRangeClasses(ts, classes) && Ordered(ts, classes)
    requires forall i :: 0 <= i < |classes| ==> Key(ts, classes[i]) <= Key(ts, c)
    ensures InRangeClasses(ts, classes + [c]) && Ordered(ts, classes + [c])
  {
    hide Key, InRangeClass;
  }

  lemma OrderedPrefix(ts: seq<Tri>, classes: seq<seq<nat>>)
    requires InRangeClasses(ts, classes) && Ordered(ts, classes) && |classes| > 0
    ensures var n := |classes| - 1;
            && InRangeClasses(ts, classes[..n]) && Ordered(ts, classes[..n])
            && forall i :: 0 <= i < |classes| ==> Key(ts, classes[i]) <= Key(ts, classes[n])
  {
    hide Key, InRangeClass;
  }

  lemma {:induction false} InsertOrdered(ts: seq<Tri>, c: seq<nat>, classes: seq<seq<nat>>)
    requires InRangeClass(ts, c) && InRangeClasses(ts, classes) && Ordered(ts, classes)
    ensures Ordered(ts, InsertClass(ts, c, classes))
    decreases |classes|
  {
    hide Flat, InRangeClass;
    if |classes| > 0 {
      var n := |classes| - 1;
      OrderedPrefix(ts, classes);
      if Key(ts, c) < Key(ts, classes[n]) {
        InsertOrdered(ts, c, classes[..n]);
        var r := InsertClass(ts, c, classes[..n]);
        InsertMembers(ts, c, classes[..n]);
        hide Ordered, Key;
        forall i | 0 <= i < |r|
          ensures Key(ts, r[i]) <= Key(ts, classes[n])
        {
          assert r[i] in r;
        }
        OrderedAppend(ts, r, classes[n]);
      } else {
        OrderedAppend(ts, classes, c);
      }
    }
  }

  lemma InsertMembers(ts: seq<Tri>, c: seq<nat>, classes: seq<seq<nat>>)
    requires InRangeClass(ts, c) && InRangeClasses(ts, classes)
    ensures forall d :: d in InsertClass(ts, c, classes) ==> d == c || d in classes
  {
    var r := InsertClass(ts, c, classes);
    hide InsertClass;
    forall d | d in r
      ensures d == c || d in classes
    {
      assert d in multiset(r);
    }
  }

  function SortClasses(ts: seq<Tri>, classes: seq<seq<nat>>): (r: seq<seq<nat>>)
    requires InRangeClasses(ts, classes)
    ensures multiset(r) == multiset(classes)
    ensures InRangeClasses(ts, r)
    ensures multiset(Flat(r)) == multiset(Flat(classes))
  {
    if |classes| == 0 then []
    else
      var n := |classes| - 1;
      assert classes == classes[..n] + [classes[n]];
      InsertClass(ts, classes[n], SortClasses(ts, classes[..n]))
  }

  lemma {:induction false} SortOrdered(ts: seq<Tri>, classes: seq<seq<nat>>)
    requires InRangeClasses(ts, classes)
    ensures Ordered(ts, SortClasses(ts, classes))
    decreases |classes|
  {
    hide Key, Flat, InRangeClass;
    if |classes| > 0 {
      var n := |classes| - 1;
      SortOrdered(ts, classes[..n]);
      InsertOrdered(ts, classes[n], SortClasses(ts, classes[..n]));
    }
  }

  /** Shell i holds the triangles of class i. */
  ghost predicate Holds(ts: seq<Tri>, classes: seq<seq<nat>>, shells: seq<seq<Tri>>) {
    && |shells| == |classes|
    && InRangeClasses(ts, classes)
    && forall i :: 0 <= i < |shells| ==> shells[i] == Pick(ts, classes[i])
  }

  /** Splits the triangles into shells: a partition whose classes are exactly
      the connected components under edge sharing, ordered by smallest vertex. */
  method SplitConnectedShells(ts: seq<Tri>) returns (shells: seq<seq<Tri>>, ghost classes: seq<seq<nat>>)
    ensures Holds(ts, classes, shells)
    ensures Partition(classes, |ts|) && Components(ts, classes)
    ensures forall i, j :: 0 <= i < j < |shells| ==> MinVertex(shells[i]) <= MinVertex(shells[j])
    ensures forall i :: 0 <= i < |shells| ==> |shells[i]| > 0
  {
    hide Components, MinVertex, GoodClass, Connected, Flat;
    var found := FindShells(ts);
    FoundInRange(ts, found);
    var sorted := SortClasses(ts, found);
    SortOrdered(ts, found);
    SortKeepsComponents(ts, found, sorted);
    shells := seq(|sorted|, i requires 0 <= i < |sorted| => Pick(ts, sorted[i]));
    classes := sorted;
    forall i | 0 <= i < |shells|
      ensures |shells[i]| > 0
    {
      assert sorted[i] in multiset(sorted);
      assert sorted[i] in found;
    }
  }

  lemma FoundInRange(ts: seq<Tri>, classes: seq<seq<nat>>)
    requires forall c :: c in classes ==> GoodClass(ts, c)
    ensures InRangeClasses(ts, classes)
  {
    forall i | 0 <= i < |classes|
      ensures InRangeClass(ts, classes[i])
    {
      assert GoodClass(ts, classes[i]);
      assert forall k :: 0 <= k < |classes[i]| ==> classes[i][k] in classes[i];
    }
  }

  lemma SortKeepsComponents(ts: seq<Tri>, classes: seq<seq<nat>>, sorted: seq<seq<nat>>)
    requires Partition(classes, |ts|) && Components(ts, classes)
    requires multiset(sorted) == multiset(classes) && multiset(Flat(sorted)) == multiset(Flat(classes))
    ensures Partition(sorted, |ts|) && Components(ts, sorted)
  {
    hide Flat, Connected;
    forall x: nat, y: nat
      ensures Together(sorted, x, y) <==> Together(classes, x, y)
    {
      SameMembers(classes, sorted);
    }
  }

  lemma SameMembers(a: seq<seq<nat>>, b: seq<seq<nat>>)
    requires multiset(a) == multiset(b)
    ensures forall c :: c in a <==> c in b
  {
    forall c
      ensures c in a <==> c in b
    {
      assert c in a <==> c in multiset(a);
      assert c in b <==> c in multiset(b);
    }
  }

  // ---------------------------------------------------------------- compaction

  predicate HasCorner(t: Tri, v: nat) {
    t.a == v || t.b == v || t.c == v
  }

  ghost predicate Touched(ts: seq<Tri>, v: nat) {
    exists t :: 0 <= t < |ts| && HasCorner(ts[t], v)
  }

  function Corners(ts: seq<Tri>): seq<nat> {
    if |ts| == 0 then [] else Corners(ts[..|ts| - 1]) + [ts[|ts| - 1].a, ts[|ts| - 1].b, ts[|ts| - 1].c]
  }

  function Uniq(xs: seq<nat>): (r: seq<nat>)
    ensures forall x :: x in r <==> x in xs
    ensures forall i, j :: 0 <= i < j < |r| ==> r[i] != r[j]
  {
    if |xs| == 0 then []
    else
      var n := |xs| - 1;
      assert xs == xs[..n] + [xs[n]];
      if xs[n] in xs[..n] then Uniq(xs[..n]) else Uniq(xs[..n]) + [xs[n]]
  }

  ghost predicate Increasing(xs: seq<nat>) {
    forall i, j :: 0 <= i < j < |xs| ==> xs[i] < xs[j]
  }

  lemma {:induction false} InsertIncreasing(x: nat, xs: seq<nat>)
    requires Increasing(xs) && x !in xs
    ensures Increasing(InsertNat(x, xs))
    decreases |xs|
  {
    if |xs| > 0 && x >= xs[0] {
      InsertIncreasing(x, xs[1..]);
      var r := InsertNat(x, xs[1..]);
      forall i | 0 <= i < |r|
        ensures xs[0] < r[i]
      {
        assert r[i] in multiset(r);
        assert r[i] in xs[1..] || r[i] == x;
      }
    }
  }

  lemma {:induction false} SortIncreasing(xs: seq<nat>)
    requires forall i, j :: 0 <= i < j < |xs| ==> xs[i] != xs[j]
    ensures Increasing(SortNats(xs))
    decreases |xs|
  {
    if |xs| > 0 {
      SortIncreasing(xs[1..]);
      SortedMembers(xs[1..]);
      InsertIncreasing(xs[0], SortNats(xs[1..]));
    }
  }

  lemma {:induction false} CornerMember(ts: seq<Tri>, x: nat)
    ensures x in Corners(ts) <==> Touched(ts, x)
    decreases |ts|
  {
    if |ts| > 0 {
      var n := |ts| - 1;
      CornerMember(ts[..n], x);
      if Touched(ts, x) {
        var t :| 0 <= t < |ts| && HasCorner(ts[t], x);
        assert t < n ==> HasCorner(ts[..n][t], x);
      }
      if Touched(ts[..n], x) {
        var t :| 0 <= t < n && HasCorner(ts[..n][t], x);
        assert HasCorner(ts[t], x);
      }
      assert HasCorner(ts[n], x) ==> Touched(ts, x);
    }
  }

  /** A compacted shell: `used` lists the old index of every new vertex. */
  ghost predicate Compacts(vertices: seq<Vec3>, ts: seq<Tri>, used: seq<nat>, vertices': seq<Vec3>, ts': seq<Tri>) {
    && Increasing(used)
    && |vertices'| == |used| && |ts'| == |ts|
    && (forall v :: 0 <= v < |used| ==> used[v] < |vertices| && vertices'[v] == vertices[used[v]])
    && (forall t :: 0 <= t < |ts| ==>
                      && ts'[t].a < |used| && ts'[t].b < |used| && ts'[t].c < |used|
                      && used[ts'[t].a] == ts[t].a && used[ts'[t].b] == ts[t].b && used[ts'[t].c] == ts[t].c)
    && (forall v :: 0 <= v < |used| ==> Touched(ts', v))
  }

  /** The vertices of the triangles, each once and in ascending order. */
  method UsedVertices(ts: seq<Tri>) returns (used: seq<nat>)
    ensures Increasing(used)
    ensures forall x: nat :: x in used <==> Touched(ts, x)
  {
    used := SortNats(Uniq(Corners(ts)));
    SortIncreasing(Uniq(Corners(ts)));
    SortedMembers(Uniq(Corners(ts)));
    hide SortNats, Corners, HasCorner;
    forall x: nat
      ensures x in used <==> Touched(ts, x)
    {
      CornerMember(ts, x);
    }
  }

  /** Keeps every corner's coordinates, uses every kept vertex, and yields
      indices in range. */
  method CompactShell(vertices: seq<Vec3>, ts: seq<Tri>) returns (vertices': seq<Vec3>, ts': seq<Tri>, ghost used: seq<nat>)
    requires forall t :: 0 <= t < |ts| ==> ts[t].a < |vertices| && ts[t].b < |vertices| && ts[t].c < |vertices|
    ensures Compacts(vertices, ts, used, vertices', ts')
    ensures forall v :: 0 <= v < |vertices'| ==> Touched(ts', v)
    ensures |ts'| == |ts| && forall t :: 0 <= t < |ts| ==>
                                           && ts'[t].a < |vertices'| && vertices'[ts'[t].a] == vertices[ts[t].a]
                                           && ts'[t].b < |vertices'| && vertices'[ts'[t].b] == vertices[ts[t].b]
                                           && ts'[t].c < |vertices'| && vertices'[ts'[t].c] == vertices[ts[t].c]
  {
    var kept := UsedVertices(ts);
    used := kept;
    KeptInRange(vertices, ts, kept);
    var remap: map<nat, nat> := map[];
    vertices' := [];
    for i := 0 to |kept|
      invariant |vertices'| == i && forall v :: 0 <= v < i ==> vertices'[v] == vertices[kept[v]]
      invariant forall v :: 0 <= v < i ==> kept[v] in remap
      invariant forall x :: x in remap ==> remap[x] < i && kept[remap[x]] == x
    {
      hide Increasing, HasCorner, Touched;
      remap := remap[kept[i] := i];
      vertices' := vertices' + [vertices[kept[i]]];
    }
    ts' := Renumber(ts, remap);
    AllUsed(ts, ts', kept);
    hide Increasing, HasCorner, Touched;
  }

  /** Every corner through the map. */
  function Renumber(ts: seq<Tri>, remap: map<nat, nat>): (r: seq<Tri>)
    requires forall t :: 0 <= t < |ts| ==> ts[t].a in remap && ts[t].b in remap && ts[t].c in remap
    ensures |r| == |ts|
    ensures forall t :: 0 <= t < |ts| ==> r[t] == Tri(remap[ts[t].a], remap[ts[t].b], remap[ts[t].c])
  {
    seq(|ts|, t requires 0 <= t < |ts| => Tri(remap[ts[t].a], remap[ts[t].b], remap[ts[t].c]))
  }

  lemma KeptInRange(vertices: seq<Vec3>, ts: seq<Tri>, kept: seq<nat>)
    requires forall t :: 0 <= t < |ts| ==> ts[t].a < |vertices| && ts[t].b < |vertices| && ts[t].c < |vertices|
    requires forall x: nat :: x in kept <==> Touched(ts, x)
    ensures forall v :: 0 <= v < |kept| ==> kept[v] < |vertices|
    ensures forall t :: 0 <= t < |ts| ==> ts[t].a in kept && ts[t].b in kept && ts[t].c in kept
  {
    forall v | 0 <= v < |kept|
      ensures kept[v] < |vertices|
    {
      assert kept[v] in kept;
    }
    forall t | 0 <= t < |ts|
      ensures ts[t].a in kept && ts[t].b in kept && ts[t].c in kept
    {
      assert HasCorner(ts[t], ts[t].a) && HasCorner(ts[t], ts[t].b) && HasCorner(ts[t], ts[t].c);
    }
  }

  lemma AllUsed(ts: seq<Tri>, ts': seq<Tri>, kept: seq<nat>)
    requires Increasing(kept) && |ts'| == |ts|
    requires forall t :: 0 <= t < |ts| ==>
                           && ts'[t].a < |kept| && ts'[t].b < |kept| && ts'[t].c < |kept|
                           && kept[ts'[t].a] == ts[t].a && kept[ts'[t].b] == ts[t].b && kept[ts'[t].c] == ts[t].c
    requires forall x: nat :: x in kept ==> Touched(ts, x)
    ensures forall v :: 0 <= v < |kept| ==> Touched(ts', v)
  {
    forall v | 0 <= v < |kept|
      ensures Touched(ts', v)
    {
      assert kept[v] in kept;
      var t :| 0 <= t < |ts| && HasCorner(ts[t], kept[v]);
      SameIndex(kept, ts'[t].a, v);
      SameIndex(kept, ts'[t].b, v);
      SameIndex(kept, ts'[t].c, v);
      assert HasCorner(ts'[t], v);
    }
  }

  lemma SameIndex(kept: seq<nat>, i: nat, j: nat)
    requires Increasing(kept) && i < |kept| && j < |kept|
    ensures kept[i] == kept[j] <==> i == j
  {
  }
}
