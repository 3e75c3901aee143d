/** Building the package of a scene and checking its limits. */
module ScenePackage {
  import opened Results
  import opened SceneTree
  import opened Solids
  import opened SceneExport

  datatype Package<T> = Package(definitions: seq<Definition>, instances: seq<Instance<T>>)

  // ---------------------------------------------------------------- totals do not depend on the order

  lemma {:induction false} TotalsRemove(definitions: seq<Definition>, j: nat)
    requires j < |definitions|
    ensures VertexTotal(definitions) == VertexTotal(definitions[..j] + definitions[j + 1..]) + |definitions[j].solid.vertices|
    ensures TriangleTotal(definitions) == TriangleTotal(definitions[..j] + definitions[j + 1..]) + |definitions[j].solid.triangles|
    decreases |definitions|
  {
    var n := |definitions| - 1;
    var rest := definitions[..j] + definitions[j + 1..];
    if j == n {
      assert rest == definitions[..n];
    } else {
      TotalsRemove(definitions[..n], j);
      assert definitions[..n][..j] + definitions[..n][j + 1..] == rest[..n - 1];
      assert rest[n - 1] == definitions[n];
    }
  }

  lemma RemovedBag<X>(s: seq<X>, j: nat)
    requires j < |s|
    ensures multiset(s) == multiset(s[..j] + s[j + 1..]) + multiset{s[j]}
  {
    assert s == s[..j] + [s[j]] + s[j + 1..];
    assert multiset(s) == multiset(s[..j]) + multiset{s[j]} + multiset(s[j + 1..]);
  }

  lemma FindLast<X>(a: seq<X>, b: seq<X>) returns (j: nat)
    requires multiset(a) == multiset(b) && a != []
    ensures j < |b| && b[j] == a[|a| - 1]
    ensures multiset(a[..|a| - 1]) == multiset(b[..j] + b[j + 1..])
  {
    var n := |a| - 1;
    assert a[n] in multiset(b);
    j :| 0 <= j < |b| && b[j] == a[n];
    RemovedBag(a, n);
    RemovedBag(b, j);
    assert a[..n] + a[n + 1..] == a[..n];
    CancelBag(multiset(a[..n]), multiset(b[..j] + b[j + 1..]), a[n]);
  }

  lemma CancelBag<X>(p: multiset<X>, q: multiset<X>, x: X)
    requires p + multiset{x} == q + multiset{x}
    ensures p == q
  {
    assert p == (p + multiset{x}) - multiset{x};
    assert q == (q + multiset{x}) - multiset{x};
  }

  lemma {:induction false} TotalsPermuted(a: seq<Definition>, b: seq<Definition>)
    requires multiset(a) == multiset(b)
    ensures VertexTotal(a) == VertexTotal(b) && TriangleTotal(a) == TriangleTotal(b)
    decreases |a|
  {
    hide VertexTotal, TriangleTotal;
    if a == [] {
      assert |multiset(a)| == 0 && |multiset(b)| == |b|;
    } else {
      var n := |a| - 1;
      var j := FindLast(a, b);
      TotalsPermuted(a[..n], b[..j] + b[j + 1..]);
      TotalsRemove(b, j);
      TotalsRemove(a, n);
      assert a[..n] + a[n + 1..] == a[..n];
    }
  }

  lemma PermutedMembers<X>(a: seq<X>, b: seq<X>)
    requires multiset(a) == multiset(b)
    ensures |a| == |b|
    ensures forall x :: x in a <==> x in b
  {
    assert |multiset(a)| == |a| && |multiset(b)| == |b|;
    forall x
      ensures x in a <==> x in b
    {
      assert x in a <==> x in multiset(a);
      assert x in b <==> x in multiset(b);
    }
  }

  /** Limits hold of every reordering together. */
  lemma WithinPermuted(a: seq<Definition>, b: seq<Definition>, instances: nat)
    requires multiset(a) == multiset(b) && Within(a, instances)
    ensures Within(b, instances)
  {
    TotalsPermuted(a, b);
    PermutedMembers(a, b);
    hide VertexTotal, TriangleTotal;
    forall n | 0 <= n < |b|
      ensures |b[n].solid.vertices| <= MAX_VERTICES_PER_DEFINITION && |b[n].solid.triangles| <= MAX_TRIANGLES_PER_DEFINITION
    {
      assert b[n] in b;
      var m :| 0 <= m < |a| && a[m] == b[n];
    }
  }

  // ---------------------------------------------------------------- the limits check

  lemma PrefixTotals(definitions: seq<Definition>, n: nat)
    requires n < |definitions|
    ensures VertexTotal(definitions[..n + 1]) == VertexTotal(definitions[..n]) + |definitions[n].solid.vertices|
    ensures TriangleTotal(definitions[..n + 1]) == TriangleTotal(definitions[..n]) + |definitions[n].solid.triangles|
  {
    assert definitions[..n + 1][..n] == definitions[..n];
  }

  /** The package is over the limit that the error names. */
  ghost predicate Exceeds<T>(package: Package<T>, e: Error) {
    if e == TooManyInstances then |package.instances| > MAX_INSTANCES else OverLimit(package.definitions, e)
  }

  /** Accepts exactly the packages within every limit. */
  method ValidatePackageLimits<T>(package: Package<T>) returns (r: Result<(), Error>)
    ensures r.Ok? <==> Within(package.definitions, |package.instances|)
    ensures r.Err? ==> Exceeds(package, r.error)
  {
    hide VertexTotal, TriangleTotal;
    var definitions := package.definitions;
    if |definitions| > MAX_DEFINITIONS {
      return Err(TooManyDefinitions);
    }
    if |package.instances| > MAX_INSTANCES {
      return Err(TooManyInstances);
    }
    var vertices, triangles := 0, 0;
    NoTotals();
    assert definitions[..0] == [];
    for n := 0 to |definitions|
      invariant vertices == VertexTotal(definitions[..n]) && triangles == TriangleTotal(definitions[..n])
      invariant forall m :: 0 <= m < n ==> |definitions[m].solid.vertices| <= MAX_VERTICES_PER_DEFINITION
      invariant forall m :: 0 <= m < n ==> |definitions[m].solid.triangles| <= MAX_TRIANGLES_PER_DEFINITION
    {
      if |definitions[n].solid.vertices| > MAX_VERTICES_PER_DEFINITION {
        return Err(DefinitionVertices);
      }
      if |definitions[n].solid.triangles| > MAX_TRIANGLES_PER_DEFINITION {
        return Err(DefinitionTriangles);
      }
      PrefixTotals(definitions, n);
      vertices := vertices + |definitions[n].solid.vertices|;
      triangles := triangles + |definitions[n].solid.triangles|;
    }
    assert definitions[..|definitions|] == definitions;
    if vertices > MAX_TOTAL_VERTICES {
      return Err(TotalVertices);
    }
    if triangles > MAX_TOTAL_TRIANGLES {
      return Err(TotalTriangles);
    }
    r := Ok(());
  }

  lemma NoTotals()
    ensures VertexTotal([]) == 0 && TriangleTotal([]) == 0
  {
  }

  // ---------------------------------------------------------------- building

  ghost predicate Permuting<X(!new)>(order: seq<X> -> seq<X>) {
    forall s :: multiset(order(s)) == multiset(s)
  }

  /** Every definition is a sound solid and every instance names one. */
  ghost predicate Consistent<T>(package: Package<T>) {
    && (forall n :: 0 <= n < |package.definitions| ==> Sound(package.definitions[n].solid))
    && InstancesNamed(package.instances, package.definitions)
  }

  /** The definitions are, in some order, the solids of the containers' shells,
      each with its id, and the instances the naive expansion of the scene. */
  ghost predicate ShowsBy<T>(package: Package<T>, scene: Scene<T>, root: Key, world: T,
                             definitions: seq<Definition>, homes: seq<Home>, origins: Origins, ids: Ids)
    requires WellFormed(scene)
  {
    && multiset(package.definitions) == multiset(definitions)
    && Filled(definitions, homes, ids)
    && AllTraced(definitions, homes, origins)
    && Meshed(scene, root, ids, origins)
    && Covered(scene, ids, root, 0)
    && multiset(package.instances) == multiset(Expand(scene, ids, root, world, true, 0))
  }

  ghost predicate Shows<T>(package: Package<T>, scene: Scene<T>, root: Key, world: T)
    requires WellFormed(scene)
  {
    exists definitions, homes, origins, ids :: ShowsBy(package, scene, root, world, definitions, homes, origins, ids)
  }

  /** Ids and solids of containers of the scene, each traced to its shell. */
  ghost predicate Catalogue<T>(scene: Scene<T>, root: Key, definitions: seq<Definition>, homes: seq<Home>, origins: Origins, ids: Ids)
    requires WellFormed(scene)
  {
    Filled(definitions, homes, ids) && AllTraced(definitions, homes, origins) && Meshed(scene, root, ids, origins)
  }

  /** The solids of some containers alone are placed too often. */
  ghost predicate PlacedTooOften<T>(scene: Scene<T>, root: Key, world: T)
    requires WellFormed(scene)
  {
    exists definitions, homes, origins, ids ::
      Catalogue(scene, root, definitions, homes, origins, ids) && |Expand(scene, ids, root, world, true, 0)| > MAX_INSTANCES
  }

  /** No container that is reached has a solid. */
  ghost predicate Bare<T>(scene: Scene<T>, root: Key, world: T)
    requires WellFormed(scene)
  {
    exists definitions, homes, origins, ids ::
      Catalogue(scene, root, definitions, homes, origins, ids) && Covered(scene, ids, root, 0) && Expand(scene, ids, root, world, true, 0) == []
  }

  /** Every refusal is justified by the scene. */
  ghost predicate Refusable<T>(scene: Scene<T>, root: Key, world: T, e: Error)
    requires WellFormed(scene)
  {
    match e
    case TooDeep => !AllChainsAcceptable(scene, root)
    case Recursive => !AllChainsAcceptable(scene, root)
    case TooManyInstances => PlacedTooOften(scene, root, world)
    case NoGeometry => Bare(scene, root, world)
    case _ => Evidence(scene, root, e)
  }

  lemma SoundDefinitions(definitions: seq<Definition>, homes: seq<Home>, origins: Origins, ids: Ids, vertices: nat, triangles: nat)
    requires Stocked(definitions, homes, origins, ids, vertices, triangles)
    ensures forall n :: 0 <= n < |definitions| ==> Sound(definitions[n].solid)
    ensures Within(definitions, 0)
  {
    hide Filled, Within, Sound;
  }

  lemma ConsistentPermuted<T>(a: Package<T>, b: Package<T>)
    requires multiset(a.definitions) == multiset(b.definitions) && multiset(a.instances) == multiset(b.instances)
    requires Consistent(a)
    ensures Consistent(b)
  {
    hide Sound;
    PermutedMembers(a.definitions, b.definitions);
    PermutedMembers(a.instances, b.instances);
    forall n | 0 <= n < |b.definitions|
      ensures Sound(b.definitions[n].solid)
    {
      assert b.definitions[n] in b.definitions;
      var m :| 0 <= m < |a.definitions| && a.definitions[m] == b.definitions[n];
    }
    forall i | 0 <= i < |b.instances|
      ensures Named(b.definitions, b.instances[i].definition)
    {
      assert b.instances[i] in b.instances;
      var k :| 0 <= k < |a.instances| && a.instances[k] == b.instances[i];
      var m :| 0 <= m < |a.definitions| && a.definitions[m].id == a.instances[k].definition;
      assert a.definitions[m] in a.definitions;
      var n :| 0 <= n < |b.definitions| && b.definitions[n] == a.definitions[m];
    }
  }

  /** Builds the package of a scene, cyclic ones included: it is within every
      limit, its definitions are sound, its instances exist and are the scene's
      expansion. Every refusal is justified by the scene. */
  method BuildPackage<T(!new)>(scene: Scene<T>, root: Key, world: T,
                         orderDefinitions: seq<Definition> -> seq<Definition>, orderInstances: seq<Instance<T>> -> seq<Instance<T>>)
    returns (r: Result<Package<T>, Error>)
    requires WellFormed(scene) && root in scene.containers
    requires Permuting(orderDefinitions) && Permuting(orderInstances)
    ensures r.Ok? ==> Within(r.value.definitions, |r.value.instances|) && Consistent(r.value) && r.value.instances != []
    ensures r.Ok? ==> Shows(r.value, scene, root, world) && AllChainsAcceptable(scene, root)
    ensures r.Err? ==> Refusable(scene, root, world, r.error)
  {
    hide Evidence, WellFormed, Good, AllChainsAcceptable, Nested, Stocked, Meshed, Logged, Within, Consistent, Expand, Covered, NoRepeat, Extends, Filled, AllTraced;
    NestedIsAcceptable(scene, root);
    var exporter := new Exporter(scene, root);
    var walked := exporter.Walk(root, world, true, [], 0);
    if walked.Err? {
      if walked.error == TooManyInstances {
        GoodParts(scene, root, exporter.definitions, exporter.homes, exporter.origins, exporter.ids, exporter.totalVertices, exporter.totalTriangles,
                  exporter.triangulated, exporter.instances);
        StockedParts(exporter.definitions, exporter.homes, exporter.origins, exporter.ids, exporter.totalVertices, exporter.totalTriangles);
        assert Catalogue(scene, root, exporter.definitions, exporter.homes, exporter.origins, exporter.ids);
      } else if walked.error != TooDeep && walked.error != Recursive {
        EvidenceKinds(scene, root, walked.error);
      }
      return Err(walked.error);
    }
    GoodParts(scene, root, exporter.definitions, exporter.homes, exporter.origins, exporter.ids, exporter.totalVertices, exporter.totalTriangles,
              exporter.triangulated, exporter.instances);
    StockedParts(exporter.definitions, exporter.homes, exporter.origins, exporter.ids, exporter.totalVertices, exporter.totalTriangles);
    if exporter.instances == [] {
      assert Catalogue(scene, root, exporter.definitions, exporter.homes, exporter.origins, exporter.ids);
      return Err(NoGeometry);
    }
    var package := Package(orderDefinitions(exporter.definitions), orderInstances(exporter.instances));
    PackageGood(exporter.definitions, exporter.homes, exporter.origins, exporter.ids, exporter.totalVertices, exporter.totalTriangles,
                exporter.instances, package);
    assert ShowsBy(package, scene, root, world, exporter.definitions, exporter.homes, exporter.origins, exporter.ids);
    r := Ok(package);
  }

  lemma StockedParts(definitions: seq<Definition>, homes: seq<Home>, origins: Origins, ids: Ids, vertices: nat, triangles: nat)
    requires Stocked(definitions, homes, origins, ids, vertices, triangles)
    ensures Filled(definitions, homes, ids) && AllTraced(definitions, homes, origins)
  {
    hide Filled, AllTraced, Within, VertexTotal, TriangleTotal;
  }

  lemma PackageGood<T>(definitions: seq<Definition>, homes: seq<Home>, origins: Origins, ids: Ids, vertices: nat, triangles: nat,
                       instances: seq<Instance<T>>, package: Package<T>)
    requires Stocked(definitions, homes, origins, ids, vertices, triangles) && |instances| <= MAX_INSTANCES
    requires InstancesNamed(instances, definitions)
    requires multiset(package.definitions) == multiset(definitions) && multiset(package.instances) == multiset(instances)
    ensures Within(package.definitions, |package.instances|) && Consistent(package) && |package.instances| == |instances|
  {
    hide Stocked, Within, Sound;
    SoundDefinitions(definitions, homes, origins, ids, vertices, triangles);
    ConsistentPermuted(Package(definitions, instances), package);
    PermutedMembers(instances, package.instances);
    WithinPermuted(definitions, package.definitions, 0);
    WithinMore(package.definitions, |instances|);
  }

  lemma WithinMore(definitions: seq<Definition>, instances: nat)
    requires Within(definitions, 0) && instances <= MAX_INSTANCES
    ensures Within(definitions, instances)
  {
    hide VertexTotal, TriangleTotal;
  }

  /** The limits check that follows the build never refuses. */
  method Export<T(!new)>(scene: Scene<T>, root: Key, world: T,
                   orderDefinitions: seq<Definition> -> seq<Definition>, orderInstances: seq<Instance<T>> -> seq<Instance<T>>)
    returns (built: Result<Package<T>, Error>, checked: Result<(), Error>)
    requires WellFormed(scene) && root in scene.containers
    requires Permuting(orderDefinitions) && Permuting(orderInstances)
    ensures built.Ok? ==> checked.Ok? && Within(built.value.definitions, |built.value.instances|)
    ensures built.Err? ==> checked == Err(built.error)
  {
    hide Within, Consistent, Shows, AllChainsAcceptable, WellFormed, Refusable;
    built := BuildPackage(scene, root, world, orderDefinitions, orderInstances);
    if built.Err? {
      return built, Err(built.error);
    }
    checked := ValidatePackageLimits(built.value);
  }
}
