/** The cached recursive walk that turns a scene into a package. */
module SceneExport {
  import opened Results
  import opened Linalg
  import opened Mesh
  import opened Volume
  import opened Welding
  import opened Solids
  import opened SceneTree
  import opened DefinitionIds
  import Shells
  import Orientation

  const MAX_DEFINITIONS: nat := 128
  const MAX_INSTANCES: nat := 512
  const MAX_TOTAL_VERTICES: nat := 200_000
  const MAX_TOTAL_TRIANGLES: nat := 400_000
  const MAX_VERTICES_PER_DEFINITION: nat := 100_000
  const MAX_TRIANGLES_PER_DEFINITION: nat := 200_000

  datatype Definition = Definition(id: string, solid: Solid)

  datatype Error =
    | TooDeep | Recursive
    | TooManyInstances | TooManyDefinitions
    | DefinitionVertices | DefinitionTriangles
    | TotalVertices | TotalTriangles
    | NotASolid(refusal: Refusal)
    | NoGeometry

  // ---------------------------------------------------------------- the definition table

  ghost predicate Named(definitions: seq<Definition>, id: string) {
    exists n :: 0 <= n < |definitions| && definitions[n].id == id
  }

  /** Stores under the id, in place of an earlier entry or at the end. */
  function Put(definitions: seq<Definition>, d: Definition): seq<Definition> {
    if definitions == [] then [d]
    else if definitions[0].id == d.id then [d] + definitions[1..]
    else [definitions[0]] + Put(definitions[1..], d)
  }

  lemma {:induction false} PutFresh(definitions: seq<Definition>, d: Definition)
    requires !Named(definitions, d.id)
    ensures Put(definitions, d) == definitions + [d]
  {
    if definitions != [] {
      assert definitions[0].id != d.id;
      assert forall n :: 0 <= n < |definitions| - 1 ==> definitions[1..][n] == definitions[n + 1];
      PutFresh(definitions[1..], d);
    }
  }

  function VertexTotal(definitions: seq<Definition>): nat {
    if definitions == [] then 0
    else VertexTotal(definitions[..|definitions| - 1]) + |definitions[|definitions| - 1].solid.vertices|
  }

  function TriangleTotal(definitions: seq<Definition>): nat {
    if definitions == [] then 0
    else TriangleTotal(definitions[..|definitions| - 1]) + |definitions[|definitions| - 1].solid.triangles|
  }

  lemma TotalsAppend(definitions: seq<Definition>, d: Definition)
    ensures VertexTotal(definitions + [d]) == VertexTotal(definitions) + |d.solid.vertices|
    ensures TriangleTotal(definitions + [d]) == TriangleTotal(definitions) + |d.solid.triangles|
  {
    assert (definitions + [d])[..|definitions|] == definitions;
  }

  // ---------------------------------------------------------------- which solid a definition is

  /** The container and the shell number a definition was built from. */
  datatype Home = Home(key: Key, index: nat)

  /** Definitions, their homes and the cached ids describe the same solids. */
  ghost predicate Filled(definitions: seq<Definition>, homes: seq<Home>, ids: Ids) {
    && |homes| == |definitions|
    && (forall n :: 0 <= n < |homes| ==> definitions[n].id == DefinitionId(homes[n].key, homes[n].index))
    && (forall n :: 0 <= n < |homes| ==> homes[n].key in ids && homes[n].index < |ids[homes[n].key]|)
    && (forall m, n :: 0 <= m < n < |homes| ==> homes[m] != homes[n])
    && (forall k, i: nat :: k in ids && i < |ids[k]| ==> ids[k][i] == DefinitionId(k, i) && Home(k, i) in homes)
  }

  lemma FreshId(definitions: seq<Definition>, homes: seq<Home>, ids: Ids, key: Key, index: nat)
    requires Filled(definitions, homes, ids) && key in ids && index == |ids[key]|
    ensures !Named(definitions, DefinitionId(key, index)) && Home(key, index) !in homes
  {
    forall n | 0 <= n < |definitions|
      ensures definitions[n].id != DefinitionId(key, index) && homes[n] != Home(key, index)
    {
      IdsInjective(homes[n].key, homes[n].index, key, index);
    }
  }

  function Append(ids: Ids, key: Key, id: string): Ids
    requires key in ids
  {
    ids[key := ids[key] + [id]]
  }

  lemma FilledStep(definitions: seq<Definition>, homes: seq<Home>, ids: Ids, key: Key, solid: Solid)
    requires Filled(definitions, homes, ids) && key in ids
    ensures var id := DefinitionId(key, |ids[key]|);
            Filled(definitions + [Definition(id, solid)], homes + [Home(key, |ids[key]|)], Append(ids, key, id))
  {
    var index := |ids[key]|;
    FreshId(definitions, homes, ids, key, index);
    hide DefinitionId, Named;
    var id := DefinitionId(key, index);
    var ids' := Append(ids, key, id);
    var homes' := homes + [Home(key, index)];
    forall k, i: nat | k in ids' && i < |ids'[k]|
      ensures ids'[k][i] == DefinitionId(k, i) && Home(k, i) in homes'
    {
      if k == key && i == index {
        assert homes'[|homes|] == Home(k, i);
      } else {
        assert k in ids && i < |ids[k]|;
        assert Home(k, i) in homes;
      }
    }
    forall m, n | 0 <= m < n < |homes'|
      ensures homes'[m] != homes'[n]
    {
      assert n == |homes| ==> homes'[m] in homes;
    }
  }

  /** How a container was meshed: welded triangles and their shells. */
  datatype Origin = Origin(vertices: seq<Vec3>, triangles: seq<Tri>, classes: seq<seq<nat>>)

  /** The triangles are the faces' fans, and the classes their components. */
  ghost predicate FromFaces(o: Origin, faces: seq<Face>)
    requires ValidFaces(faces)
  {
    && Distinct(o.vertices)
    && InRange(o.triangles, |o.vertices|)
    && Positions(o.vertices, o.triangles) == Facets(faces, |faces|)
    && Shells.Partition(o.classes, |o.triangles|)
    && Shells.Components(o.triangles, o.classes)
  }

  /** The solid is sound and shows exactly the i-th shell's surface. */
  ghost predicate Traced(o: Origin, i: nat, solid: Solid) {
    && Sound(solid)
    && i < |o.classes|
    && Shells.InRangeClass(o.triangles, o.classes[i])
    && InRange(Shells.Pick(o.triangles, o.classes[i]), |o.vertices|)
    && SameSurface(solid, o.vertices, Shells.Pick(o.triangles, o.classes[i]))
  }

  type Origins = map<Key, Origin>

  ghost predicate AllTraced(definitions: seq<Definition>, homes: seq<Home>, origins: Origins) {
    && |homes| == |definitions|
    && forall n :: 0 <= n < |homes| ==> homes[n].key in origins && Traced(origins[homes[n].key], homes[n].index, definitions[n].solid)
  }

  ghost predicate Small(definitions: seq<Definition>) {
    forall n :: 0 <= n < |definitions| ==>
                  && |definitions[n].solid.vertices| <= MAX_VERTICES_PER_DEFINITION
                  && |definitions[n].solid.triangles| <= MAX_TRIANGLES_PER_DEFINITION
  }

  /** What every package must keep to. */
  ghost predicate Within(definitions: seq<Definition>, instances: nat) {
    && |definitions| <= MAX_DEFINITIONS
    && instances <= MAX_INSTANCES
    && Small(definitions)
    && VertexTotal(definitions) <= MAX_TOTAL_VERTICES
    && TriangleTotal(definitions) <= MAX_TOTAL_TRIANGLES
  }

  /** Everything the table promises, for given cached ids. */
  ghost predicate Stocked(definitions: seq<Definition>, homes: seq<Home>, origins: Origins, ids: Ids, vertices: nat, triangles: nat) {
    && Filled(definitions, homes, ids)
    && AllTraced(definitions, homes, origins)
    && Within(definitions, 0)
    && vertices == VertexTotal(definitions)
    && triangles == TriangleTotal(definitions)
  }

  lemma StockStep(definitions: seq<Definition>, homes: seq<Home>, origins: Origins, ids: Ids, vertices: nat, triangles: nat,
                  key: Key, solid: Solid)
    requires Stocked(definitions, homes, origins, ids, vertices, triangles)
    requires key in ids && key in origins && Traced(origins[key], |ids[key]|, solid)
    requires |definitions| < MAX_DEFINITIONS
    requires |solid.vertices| <= MAX_VERTICES_PER_DEFINITION && |solid.triangles| <= MAX_TRIANGLES_PER_DEFINITION
    requires vertices + |solid.vertices| <= MAX_TOTAL_VERTICES && triangles + |solid.triangles| <= MAX_TOTAL_TRIANGLES
    ensures var id := DefinitionId(key, |ids[key]|);
            && Put(definitions, Definition(id, solid)) == definitions + [Definition(id, solid)]
            && Stocked(definitions + [Definition(id, solid)], homes + [Home(key, |ids[key]|)], origins, Append(ids, key, id),
                       vertices + |solid.vertices|, triangles + |solid.triangles|)
  {
    hide Filled, AllTraced, Within, Traced, DefinitionId, Put, VertexTotal, TriangleTotal;
    var id := DefinitionId(key, |ids[key]|);
    FreshId(definitions, homes, ids, key, |ids[key]|);
    PutFresh(definitions, Definition(id, solid));
    FilledStep(definitions, homes, ids, key, solid);
    TracedStep(definitions, homes, origins, Definition(id, solid), Home(key, |ids[key]|));
    WithinStep(definitions, Definition(id, solid));
    TotalsAppend(definitions, Definition(id, solid));
  }

  lemma TracedStep(definitions: seq<Definition>, homes: seq<Home>, origins: Origins, d: Definition, home: Home)
    requires AllTraced(definitions, homes, origins)
    requires home.key in origins && Traced(origins[home.key], home.index, d.solid)
    ensures AllTraced(definitions + [d], homes + [home], origins)
  {
    hide Traced;
  }

  lemma WithinStep(definitions: seq<Definition>, d: Definition)
    requires Within(definitions, 0) && |definitions| < MAX_DEFINITIONS
    requires |d.solid.vertices| <= MAX_VERTICES_PER_DEFINITION && |d.solid.triangles| <= MAX_TRIANGLES_PER_DEFINITION
    requires VertexTotal(definitions) + |d.solid.vertices| <= MAX_TOTAL_VERTICES
    requires TriangleTotal(definitions) + |d.solid.triangles| <= MAX_TOTAL_TRIANGLES
    ensures Within(definitions + [d], 0)
  {
    TotalsAppend(definitions, d);
    hide VertexTotal, TriangleTotal;
  }

  // ---------------------------------------------------------------- the cache

  ghost predicate Meshed<T>(scene: Scene<T>, root: Key, ids: Ids, origins: Origins)
    requires WellFormed(scene)
  {
    forall k :: k in ids ==>
                  && k in scene.containers && k in origins && Reachable(scene, root, k)
                  && |ids[k]| == |origins[k].classes|
                  && FromFaces(origins[k], scene.containers[k].faces)
  }

  /** Containers meshed so far: once each, and only those with faces. */
  ghost predicate Logged<T>(scene: Scene<T>, ids: Ids, triangulated: seq<Key>) {
    && NoRepeat(triangulated)
    && forall k :: k in triangulated <==> k in ids && k in scene.containers && scene.containers[k].faces != []
  }

  ghost predicate InstancesNamed<T>(instances: seq<Instance<T>>, definitions: seq<Definition>) {
    forall i :: 0 <= i < |instances| ==> Named(definitions, instances[i].definition)
  }

  lemma OwnNamed(definitions: seq<Definition>, homes: seq<Home>, ids: Ids, key: Key, i: nat)
    requires Filled(definitions, homes, ids) && key in ids && i < |ids[key]|
    ensures Named(definitions, ids[key][i])
  {
    assert Home(key, i) in homes;
    var n :| 0 <= n < |homes| && homes[n] == Home(key, i);
    assert definitions[n].id == ids[key][i];
  }

  lemma StockedNamed(definitions: seq<Definition>, homes: seq<Home>, origins: Origins, ids: Ids, vertices: nat, triangles: nat, key: Key, i: nat)
    requires Stocked(definitions, homes, origins, ids, vertices, triangles) && key in ids && i < |ids[key]|
    ensures Named(definitions, ids[key][i])
  {
    hide Filled, AllTraced, Within, VertexTotal, TriangleTotal;
    OwnNamed(definitions, homes, ids, key, i);
  }

  lemma NamedGrows<T>(instances: seq<Instance<T>>, definitions: seq<Definition>, definitions': seq<Definition>)
    requires InstancesNamed(instances, definitions) && definitions <= definitions'
    ensures InstancesNamed(instances, definitions')
  {
    forall i | 0 <= i < |instances|
      ensures Named(definitions', instances[i].definition)
    {
      var n :| 0 <= n < |definitions| && definitions[n].id == instances[i].definition;
      assert definitions'[n].id == instances[i].definition;
    }
  }

  lemma EmptyContainer(faces: seq<Face>)
    requires faces == [] && ValidFaces(faces)
    ensures FromFaces(Origin([], [], []), faces)
  {
  }

  /** A container without definitions yet, and its new origin, disturb nothing. */
  lemma OpenContainer(definitions: seq<Definition>, homes: seq<Home>, origins: Origins, ids: Ids, vertices: nat, triangles: nat, key: Key, o: Origin)
    requires Stocked(definitions, homes, origins, ids, vertices, triangles) && key !in ids
    ensures Stocked(definitions, homes, origins[key := o], ids[key := []], vertices, triangles)
  {
    hide Within, Traced, DefinitionId, VertexTotal, TriangleTotal;
  }

  lemma MeshedStep<T>(scene: Scene<T>, root: Key, ids: Ids, origins: Origins, key: Key, o: Origin, found: seq<string>)
    requires WellFormed(scene) && Meshed(scene, root, ids, origins) && key !in ids && key in scene.containers && Reachable(scene, root, key)
    requires WellFormedContainer(scene, scene.containers[key])
    requires |found| == |o.classes| && FromFaces(o, scene.containers[key].faces)
    ensures Meshed(scene, root, ids[key := found], origins[key := o])
  {
    hide FromFaces;
  }

  lemma LoggedStep<T>(scene: Scene<T>, ids: Ids, triangulated: seq<Key>, key: Key, found: seq<string>)
    requires Logged(scene, ids, triangulated) && key !in ids && key in scene.containers
    ensures if scene.containers[key].faces == [] then Logged(scene, ids[key := found], triangulated)
            else Logged(scene, ids[key := found], triangulated + [key])
    ensures NoRepeat(triangulated + [key])
  {
  }

  lemma ShellInRange(vertices: seq<Vec3>, ts: seq<Tri>, classes: seq<seq<nat>>, shells: seq<seq<Tri>>, i: nat)
    requires InRange(ts, |vertices|) && Shells.Holds(ts, classes, shells) && i < |shells|
    ensures Shells.InRangeClass(ts, classes[i]) && shells[i] == Shells.Pick(ts, classes[i]) && InRange(shells[i], |vertices|)
  {
  }

  lemma FromPieces(o: Origin, faces: seq<Face>)
    requires ValidFaces(faces) && Distinct(o.vertices) && InRange(o.triangles, |o.vertices|)
    requires Positions(o.vertices, o.triangles) == Facets(faces, |faces|)
    requires Shells.Partition(o.classes, |o.triangles|) && Shells.Components(o.triangles, o.classes)
    ensures FromFaces(o, faces)
  {
    hide Distinct, InRange, Positions, Facets, Shells.Partition, Shells.Components;
  }

  lemma HeldLength(ts: seq<Tri>, classes: seq<seq<nat>>, shells: seq<seq<Tri>>)
    requires Shells.Holds(ts, classes, shells)
    ensures |shells| == |classes|
  {
  }

  lemma AppendIs(ids: Ids, key: Key, found: seq<string>, id: string)
    ensures Append(ids[key := found], key, id) == ids[key := found + [id]]
  {
  }

  lemma ContainerWellFormed<T>(scene: Scene<T>, key: Key)
    requires WellFormed(scene) && key in scene.containers
    ensures WellFormedContainer(scene, scene.containers[key]) && ValidFaces(scene.containers[key].faces)
  {
  }

  lemma FacesValid<T>(scene: Scene<T>, key: Key)
    requires key in scene.containers && WellFormedContainer(scene, scene.containers[key])
    ensures ValidFaces(scene.containers[key].faces)
  {
  }

  lemma ChildExists<T>(scene: Scene<T>, key: Key, n: nat)
    requires WellFormed(scene) && key in scene.containers && n < |Children(scene, key)|
    ensures Children(scene, key)[n].key in scene.containers
  {
    assert WellFormedContainer(scene, scene.containers[key]);
  }

  lemma NestedChild<T>(scene: Scene<T>, key: Key, path: seq<Key>, n: nat)
    requires n < |Children(scene, key)| && Nested(scene, key, path)
    ensures Nested(scene, Children(scene, key)[n].key, path + [key])
  {
  }

  lemma NestedStart<T>(scene: Scene<T>, key: Key, path: seq<Key>)
    requires Nested(scene, key, path)
    ensures |path| <= MAX_DEPTH && key !in path
  {
  }

  lemma ExtendsChain(a: Ids, b: Ids, c: Ids)
    requires Extends(a, b) && Extends(b, c)
    ensures Extends(a, c)
  {
  }

  lemma OwnIs<T>(ids: Ids, key: Key, world: T, visible: bool)
    requires key in ids
    ensures |Own(ids, key, world, visible)| == |ids[key]|
    ensures forall i :: 0 <= i < |ids[key]| ==> Own(ids, key, world, visible)[i] == Instance(ids[key][i], world, visible)
  {
  }

  lemma OwnKept<T>(ids: Ids, ids': Ids, key: Key, world: T, visible: bool)
    requires key in ids && Extends(ids, ids')
    ensures key in ids' && Own(ids', key, world, visible) == Own(ids, key, world, visible)
  {
  }

  /** The first n children of `key` are nested well and have their definitions. */
  ghost predicate ChildrenDone<T>(scene: Scene<T>, ids: Ids, key: Key, path: seq<Key>, n: nat) {
    && n <= |Children(scene, key)|
    && (forall i :: 0 <= i < n ==> Covered(scene, ids, Children(scene, key)[i].key, |path| + 1))
    && (forall i :: 0 <= i < n ==> Nested(scene, Children(scene, key)[i].key, path + [key]))
  }

  lemma ChildDone<T>(scene: Scene<T>, ids: Ids, ids': Ids, key: Key, path: seq<Key>, n: nat)
    requires ChildrenDone(scene, ids, key, path, n) && n < |Children(scene, key)| && Extends(ids, ids')
    requires Covered(scene, ids', Children(scene, key)[n].key, |path| + 1)
    requires Nested(scene, Children(scene, key)[n].key, path + [key])
    ensures ChildrenDone(scene, ids', key, path, n + 1)
  {
    hide Extends, Covered, Nested, Children;
    forall i | 0 <= i < n
      ensures Covered(scene, ids', Children(scene, key)[i].key, |path| + 1)
    {
      CoveredGrows(scene, ids, ids', Children(scene, key)[i].key, |path| + 1);
    }
  }

  /** What the walk has placed after n children. */
  ghost function Placed<T>(scene: Scene<T>, ids: Ids, key: Key, world: T, visible: bool, depth: nat, n: nat): seq<Instance<T>>
    requires depth <= MAX_DEPTH && n <= |Children(scene, key)|
  {
    Own(ids, key, world, visible) + ExpandChildren(scene, ids, key, world, visible, depth, n)
  }

  /** What child n adds. */
  ghost function ChildPlaced<T>(scene: Scene<T>, ids: Ids, key: Key, world: T, visible: bool, depth: nat, n: nat): seq<Instance<T>>
    requires n < |Children(scene, key)|
  {
    var c := Children(scene, key)[n];
    Expand(scene, ids, c.key, scene.compose(world, c.transform), visible && c.visible, depth + 1)
  }

  lemma ExpandChildrenStep<T>(scene: Scene<T>, ids: Ids, key: Key, world: T, visible: bool, depth: nat, n: nat)
    requires depth <= MAX_DEPTH && n < |Children(scene, key)|
    ensures ExpandChildren(scene, ids, key, world, visible, depth, n + 1)
         == ExpandChildren(scene, ids, key, world, visible, depth, n) + ChildPlaced(scene, ids, key, world, visible, depth, n)
  {
    hide Expand;
  }

  lemma PlacedStep<T>(scene: Scene<T>, ids: Ids, ids': Ids, key: Key, world: T, visible: bool, path: seq<Key>, n: nat)
    requires key in ids && Extends(ids, ids') && |path| <= MAX_DEPTH
    requires ChildrenDone(scene, ids, key, path, n) && n < |Children(scene, key)|
    ensures Placed(scene, ids', key, world, visible, |path|, n + 1)
         == Placed(scene, ids, key, world, visible, |path|, n) + ChildPlaced(scene, ids', key, world, visible, |path|, n)
  {
    hide Own, Extends, Covered, Nested, Children, Expand, ExpandChildren, ChildPlaced;
    OwnKept(ids, ids', key, world, visible);
    ExpandChildrenGrows(scene, ids, ids', key, world, visible, |path|, n);
    ExpandChildrenStep(scene, ids', key, world, visible, |path|, n);
  }

  lemma PlacedNone<T>(scene: Scene<T>, ids: Ids, key: Key, world: T, visible: bool, path: seq<Key>)
    requires |path| <= MAX_DEPTH
    ensures Placed(scene, ids, key, world, visible, |path|, 0) == Own(ids, key, world, visible)
    ensures ChildrenDone(scene, ids, key, path, 0)
  {
    hide Own, Expand;
  }

  lemma {:induction false} ChildrenLonger<T>(scene: Scene<T>, ids: Ids, key: Key, world: T, visible: bool, depth: nat, n: nat, m: nat)
    requires depth <= MAX_DEPTH && n <= m <= |Children(scene, key)|
    ensures |ExpandChildren(scene, ids, key, world, visible, depth, n)| <= |ExpandChildren(scene, ids, key, world, visible, depth, m)|
    decreases m
  {
    hide Expand;
    if n < m {
      ChildrenLonger(scene, ids, key, world, visible, depth, n, m - 1);
      ExpandChildrenStep(scene, ids, key, world, visible, depth, m - 1);
      hide ExpandChildren;
    }
  }

  lemma OwnInExpansion<T>(scene: Scene<T>, ids: Ids, key: Key, world: T, visible: bool, depth: nat)
    requires depth <= MAX_DEPTH
    ensures |Own(ids, key, world, visible)| <= |Expand(scene, ids, key, world, visible, depth)|
  {
    hide Own, ExpandChildren;
  }

  /** What was placed up to child n is part of the whole expansion. */
  lemma ChildInExpansion<T>(scene: Scene<T>, ids: Ids, key: Key, world: T, visible: bool, depth: nat, n: nat)
    requires depth <= MAX_DEPTH && n < |Children(scene, key)|
    ensures |Placed(scene, ids, key, world, visible, depth, n + 1)| <= |Expand(scene, ids, key, world, visible, depth)|
  {
    ChildrenLonger(scene, ids, key, world, visible, depth, n + 1, |Children(scene, key)|);
    hide Own, ExpandChildren;
  }

  lemma AllDone<T>(scene: Scene<T>, ids: Ids, key: Key, world: T, visible: bool, path: seq<Key>)
    requires |path| <= MAX_DEPTH && key !in path && key in ids
    requires ChildrenDone(scene, ids, key, path, |Children(scene, key)|)
    ensures Nested(scene, key, path) && Covered(scene, ids, key, |path|)
    ensures Placed(scene, ids, key, world, visible, |path|, |Children(scene, key)|) == Expand(scene, ids, key, world, visible, |path|)
  {
    hide Own;
  }

  /** The exporter's invariant. */
  ghost predicate Good<T>(scene: Scene<T>, root: Key, definitions: seq<Definition>, homes: seq<Home>, origins: Origins, ids: Ids,
                          vertices: nat, triangles: nat, triangulated: seq<Key>, instances: seq<Instance<T>>)
  {
    && WellFormed(scene)
    && Stocked(definitions, homes, origins, ids, vertices, triangles)
    && Meshed(scene, root, ids, origins)
    && Logged(scene, ids, triangulated)
    && |instances| <= MAX_INSTANCES
    && InstancesNamed(instances, definitions)
  }

  lemma GoodInstance<T>(scene: Scene<T>, root: Key, definitions: seq<Definition>, homes: seq<Home>, origins: Origins, ids: Ids,
                        vertices: nat, triangles: nat, triangulated: seq<Key>, instances: seq<Instance<T>>,
                        key: Key, i: nat, world: T, visible: bool)
    requires Good(scene, root, definitions, homes, origins, ids, vertices, triangles, triangulated, instances)
    requires key in ids && i < |ids[key]| && |instances| < MAX_INSTANCES
    ensures Good(scene, root, definitions, homes, origins, ids, vertices, triangles, triangulated, instances + [Instance(ids[key][i], world, visible)])
  {
    hide Stocked, Meshed, Logged, WellFormed, Named;
    StockedNamed(definitions, homes, origins, ids, vertices, triangles, key, i);
  }

  lemma GoodParts<T>(scene: Scene<T>, root: Key, definitions: seq<Definition>, homes: seq<Home>, origins: Origins, ids: Ids,
                     vertices: nat, triangles: nat, triangulated: seq<Key>, instances: seq<Instance<T>>)
    requires Good(scene, root, definitions, homes, origins, ids, vertices, triangles, triangulated, instances)
    ensures WellFormed(scene) && Stocked(definitions, homes, origins, ids, vertices, triangles) && Meshed(scene, root, ids, origins)
    ensures Logged(scene, ids, triangulated) && NoRepeat(triangulated) && InstancesNamed(instances, definitions)
    ensures |instances| <= MAX_INSTANCES
  {
    hide Stocked, Meshed, WellFormed, InstancesNamed;
  }

  lemma GoodContainer<T>(scene: Scene<T>, root: Key, definitions: seq<Definition>, homes: seq<Home>, origins: Origins, ids: Ids, vertices: nat, triangles: nat,
                         triangulated: seq<Key>, instances: seq<Instance<T>>, key: Key, o: Origin, found: seq<string>,
                         definitions': seq<Definition>, homes': seq<Home>, vertices': nat, triangles': nat)
    requires Good(scene, root, definitions, homes, origins, ids, vertices, triangles, triangulated, instances)
    requires key !in ids && key in scene.containers && Reachable(scene, root, key) && WellFormedContainer(scene, scene.containers[key])
    requires |found| == |o.classes| && FromFaces(o, scene.containers[key].faces)
    requires definitions <= definitions'
    requires Stocked(definitions', homes', origins[key := o], ids[key := found], vertices', triangles')
    ensures Good(scene, root, definitions', homes', origins[key := o], ids[key := found], vertices', triangles',
                 if scene.containers[key].faces == [] then triangulated else triangulated + [key], instances)
  {
    MeshedStep(scene, root, ids, origins, key, o, found);
    LoggedStep(scene, ids, triangulated, key, found);
    NamedGrows(instances, definitions, definitions');
    hide Stocked, Meshed, Logged, WellFormed, InstancesNamed, FromFaces;
  }

  // ---------------------------------------------------------------- evidence for a refusal

  /** Every definition comes from the faces of its own container. */
  ghost predicate Sourced<T>(scene: Scene<T>, root: Key, homes: seq<Home>, origins: Origins)
    requires WellFormed(scene)
  {
    forall n :: 0 <= n < |homes| ==>
                  && homes[n].key in scene.containers && homes[n].key in origins && Reachable(scene, root, homes[n].key)
                  && FromFaces(origins[homes[n].key], scene.containers[homes[n].key].faces)
  }

  ghost predicate DistinctHomes(homes: seq<Home>) {
    forall m, n :: 0 <= m < n < |homes| ==> homes[m] != homes[n]
  }

  /** Different solids of the scene, each with the shell it was built from. */
  ghost predicate SolidsOf<T>(scene: Scene<T>, root: Key, definitions: seq<Definition>, homes: seq<Home>, origins: Origins)
    requires WellFormed(scene)
  {
    DistinctHomes(homes) && AllTraced(definitions, homes, origins) && Sourced(scene, root, homes, origins)
  }

  /** The definitions are over the limit that the error names. */
  ghost predicate OverLimit(definitions: seq<Definition>, e: Error) {
    match e
    case TooManyDefinitions => |definitions| > MAX_DEFINITIONS
    case DefinitionVertices => exists n :: 0 <= n < |definitions| && |definitions[n].solid.vertices| > MAX_VERTICES_PER_DEFINITION
    case DefinitionTriangles => exists n :: 0 <= n < |definitions| && |definitions[n].solid.triangles| > MAX_TRIANGLES_PER_DEFINITION
    case TotalVertices => VertexTotal(definitions) > MAX_TOTAL_VERTICES
    case TotalTriangles => TriangleTotal(definitions) > MAX_TOTAL_TRIANGLES
    case _ => false
  }

  ghost predicate Oversized<T>(scene: Scene<T>, root: Key, e: Error)
    requires WellFormed(scene)
  {
    exists definitions, homes, origins :: SolidsOf(scene, root, definitions, homes, origins) && OverLimit(definitions, e)
  }

  /** Shell i of the container is no solid, for the reason given. */
  ghost predicate BadShell<T>(scene: Scene<T>, root: Key, key: Key, o: Origin, i: nat, refusal: Refusal)
    requires WellFormed(scene)
  {
    && key in scene.containers && Reachable(scene, root, key) && FromFaces(o, scene.containers[key].faces)
    && i < |o.classes| && Shells.InRangeClass(o.triangles, o.classes[i])
    && Refuted(Shells.Pick(o.triangles, o.classes[i]), refusal)
  }

  /** Some edge is not used twice; or all are, and without degenerate triangles
      no choice of flips is coherent. */
  ghost predicate Refuted(shell: seq<Tri>, refusal: Refusal) {
    match refusal
    case NotClosed => !EveryEdgeTwice(shell)
    case Contradictory => EveryEdgeTwice(shell) && (NoLoops(shell) ==> !Orientation.Orientable(shell))
  }

  ghost predicate HasBadShell<T>(scene: Scene<T>, root: Key, refusal: Refusal)
    requires WellFormed(scene)
  {
    exists key, o, i :: BadShell(scene, root, key, o, i, refusal)
  }

  /** What a refusal over a solid says about the scene. */
  ghost predicate Evidence<T>(scene: Scene<T>, root: Key, e: Error)
    requires WellFormed(scene)
  {
    match e
    case NotASolid(refusal) => HasBadShell(scene, root, refusal)
    case TooManyDefinitions => Oversized(scene, root, e)
    case DefinitionVertices => Oversized(scene, root, e)
    case DefinitionTriangles => Oversized(scene, root, e)
    case TotalVertices => Oversized(scene, root, e)
    case TotalTriangles => Oversized(scene, root, e)
    case _ => false
  }

  lemma EvidenceKinds<T>(scene: Scene<T>, root: Key, e: Error)
    requires WellFormed(scene) && Evidence(scene, root, e)
    ensures e !in {TooDeep, Recursive, TooManyInstances, NoGeometry}
  {
    hide WellFormed, Oversized, HasBadShell;
  }

  /** The definitions so far and one more solid are over the limit. */
  lemma OneTooMany<T>(scene: Scene<T>, root: Key, definitions: seq<Definition>, homes: seq<Home>, origins: Origins, ids: Ids, vertices: nat, triangles: nat,
                      key: Key, solid: Solid, e: Error)
    requires WellFormed(scene) && Stocked(definitions, homes, origins, ids, vertices, triangles) && Sourced(scene, root, homes, origins)
    requires key in ids && key in origins && Traced(origins[key], |ids[key]|, solid)
    requires key in scene.containers && Reachable(scene, root, key) && FromFaces(origins[key], scene.containers[key].faces)
    requires match e
             case TooManyDefinitions => |definitions| >= MAX_DEFINITIONS
             case DefinitionVertices => |solid.vertices| > MAX_VERTICES_PER_DEFINITION
             case DefinitionTriangles => |solid.triangles| > MAX_TRIANGLES_PER_DEFINITION
             case TotalVertices => vertices + |solid.vertices| > MAX_TOTAL_VERTICES
             case TotalTriangles => triangles + |solid.triangles| > MAX_TOTAL_TRIANGLES
             case _ => false
    ensures Evidence(scene, root, e)
  {
    hide WellFormed, FromFaces, Traced, Filled, Within, VertexTotal, TriangleTotal, DefinitionId;
    var (d, home) := (Definition("", solid), Home(key, |ids[key]|));
    var (ds, hs) := (definitions + [d], homes + [home]);
    HomeFresh(definitions, homes, ids, key);
    TracedStep(definitions, homes, origins, d, home);
    TotalsAppend(definitions, d);
    assert ds[|definitions|] == d;
    assert Sourced(scene, root, hs, origins);
    assert SolidsOf(scene, root, ds, hs, origins) && OverLimit(ds, e);
  }

  lemma HomeFresh(definitions: seq<Definition>, homes: seq<Home>, ids: Ids, key: Key)
    requires Filled(definitions, homes, ids) && key in ids
    ensures DistinctHomes(homes + [Home(key, |ids[key]|)]) && |homes| == |definitions|
  {
    FreshId(definitions, homes, ids, key, |ids[key]|);
    hide DefinitionId, Named;
    var hs := homes + [Home(key, |ids[key]|)];
    forall m, n | 0 <= m < n < |hs|
      ensures hs[m] != hs[n]
    {
      assert n == |homes| ==> hs[m] in homes;
    }
  }

  lemma RefusedShell<T>(scene: Scene<T>, root: Key, key: Key, o: Origin, i: nat, refusal: Refusal)
    requires WellFormed(scene) && key in scene.containers && Reachable(scene, root, key) && FromFaces(o, scene.containers[key].faces)
    requires i < |o.classes| && Shells.InRangeClass(o.triangles, o.classes[i])
    requires var shell := Shells.Pick(o.triangles, o.classes[i]);
             && (refusal == NotClosed <==> !EveryEdgeTwice(shell))
             && (NoLoops(shell) ==> (refusal == Contradictory <==> TwoManifold(shell) && !Orientation.Orientable(shell)))
    ensures Evidence(scene, root, NotASolid(refusal))
  {
    hide WellFormed, FromFaces, EveryEdgeTwice, NoLoops, Orientation.Orientable, TwoManifold, Shells.InRangeClass;
    assert BadShell(scene, root, key, o, i, refusal);
  }

  lemma OriginDistinct(o: Origin, faces: seq<Face>)
    requires ValidFaces(faces) && FromFaces(o, faces)
    ensures Distinct(o.vertices)
  {
  }

  lemma SourcedStep<T>(scene: Scene<T>, root: Key, homes: seq<Home>, origins: Origins, home: Home)
    requires WellFormed(scene) && Sourced(scene, root, homes, origins) && home.key in scene.containers && home.key in origins
    requires Reachable(scene, root, home.key)
    requires FromFaces(origins[home.key], scene.containers[home.key].faces)
    ensures Sourced(scene, root, homes + [home], origins)
  {
    hide FromFaces, WellFormed;
  }

  /** All homes lie in cached containers, which were meshed from their faces. */
  lemma CachedSourced<T>(scene: Scene<T>, root: Key, definitions: seq<Definition>, homes: seq<Home>, origins: Origins, ids: Ids, key: Key, o: Origin)
    requires WellFormed(scene) && Meshed(scene, root, ids, origins) && Filled(definitions, homes, ids) && key !in ids
    ensures Sourced(scene, root, homes, origins[key := o])
  {
    hide FromFaces, WellFormed, DefinitionId;
  }

  lemma StockedSourced<T>(scene: Scene<T>, root: Key, definitions: seq<Definition>, homes: seq<Home>, origins: Origins, ids: Ids,
                          vertices: nat, triangles: nat, key: Key, o: Origin)
    requires WellFormed(scene) && Meshed(scene, root, ids, origins) && key !in ids
    requires Stocked(definitions, homes, origins, ids, vertices, triangles)
    ensures Sourced(scene, root, homes, origins[key := o])
  {
    hide WellFormed, Meshed, Filled, AllTraced, Within, Sourced;
    CachedSourced(scene, root, definitions, homes, origins, ids, key, o);
  }

  class Exporter<!T> {
    const scene: Scene<T>
    const root: Key
    var definitions: seq<Definition>
    var instances: seq<Instance<T>>
    var ids: Ids
    var totalVertices: nat
    var totalTriangles: nat
    ghost var homes: seq<Home>
    ghost var origins: Origins
    ghost var triangulated: seq<Key>

    ghost predicate Valid()
      reads this
    {
      Good(scene, root, definitions, homes, origins, ids, totalVertices, totalTriangles, triangulated, instances)
    }

    constructor (scene: Scene<T>, root: Key)
      requires WellFormed(scene)
      ensures Valid() && this.scene == scene && this.root == root && definitions == [] && instances == [] && ids == map[]
    {
      this.scene, this.root := scene, root;
      definitions, instances, ids := [], [], map[];
      totalVertices, totalTriangles := 0, 0;
      homes, origins, triangulated := [], map[], [];
    }

    /** Adds the next solid of container `key`; `pending` holds the ids so far. */
    method AddSolid(key: Key, index: nat, vertices: seq<Vec3>, shell: seq<Tri>, ghost pending: Ids)
      returns (r: Result<string, Error>)
      requires Stocked(definitions, homes, origins, pending, totalVertices, totalTriangles)
      requires key in pending && index == |pending[key]|
      requires key in origins && index < |origins[key].classes| && vertices == origins[key].vertices
      requires InRange(shell, |vertices|) && |shell| > 0
      requires Shells.InRangeClass(origins[key].triangles, origins[key].classes[index])
      requires shell == Shells.Pick(origins[key].triangles, origins[key].classes[index])
      requires WellFormed(scene) && Sourced(scene, root, homes, origins) && key in scene.containers && Reachable(scene, root, key)
      requires FromFaces(origins[key], scene.containers[key].faces)
      modifies this`definitions, this`homes, this`totalVertices, this`totalTriangles
      ensures r.Ok? ==> r.value == DefinitionId(key, index)
      ensures r.Ok? ==> Stocked(definitions, homes, origins, Append(pending, key, r.value), totalVertices, totalTriangles)
      ensures r.Ok? ==> old(definitions) <= definitions && Sourced(scene, root, homes, origins)
      ensures r.Err? ==> Evidence(scene, root, r.error)
    {
      hide Stocked, Sound, SameSurface, Shells.InRangeClass, Shells.Pick, InRange, NoLoops, TwoManifold, EveryEdgeTwice, Put, DefinitionId,
           WellFormed, FromFaces, Sourced, Evidence, Orientation.Orientable, Distinct, Wound;
      ContainerWellFormed(scene, key);
      OriginDistinct(origins[key], scene.containers[key].faces);
      ghost var tv, tt := totalVertices, totalTriangles;
      var id := DefinitionId(key, index);
      var built := BuildSolid(vertices, shell);
      if built.Err? {
        RefusedShell(scene, root, key, origins[key], index, built.error);
        return Err(NotASolid(built.error));
      }
      var solid := built.value;
      if |definitions| >= MAX_DEFINITIONS {
        OneTooMany(scene, root, definitions, homes, origins, pending, tv, tt, key, solid, TooManyDefinitions);
        return Err(TooManyDefinitions);
      }
      if |solid.vertices| > MAX_VERTICES_PER_DEFINITION {
        OneTooMany(scene, root, definitions, homes, origins, pending, tv, tt, key, solid, DefinitionVertices);
        return Err(DefinitionVertices);
      }
      if |solid.triangles| > MAX_TRIANGLES_PER_DEFINITION {
        OneTooMany(scene, root, definitions, homes, origins, pending, tv, tt, key, solid, DefinitionTriangles);
        return Err(DefinitionTriangles);
      }
      totalVertices := totalVertices + |solid.vertices|;
      totalTriangles := totalTriangles + |solid.triangles|;
      if totalVertices > MAX_TOTAL_VERTICES {
        OneTooMany(scene, root, definitions, homes, origins, pending, tv, tt, key, solid, TotalVertices);
        return Err(TotalVertices);
      }
      if totalTriangles > MAX_TOTAL_TRIANGLES {
        OneTooMany(scene, root, definitions, homes, origins, pending, tv, tt, key, solid, TotalTriangles);
        return Err(TotalTriangles);
      }
      StockStep(definitions, homes, origins, pending, tv, tt, key, solid);
      SourcedStep(scene, root, homes, origins, Home(key, index));
      definitions := Put(definitions, Definition(id, solid));
      homes := homes + [Home(key, index)];
      r := Ok(id);
    }

    /** Meshes a container with faces for the first time. */
    method MeshContainer(key: Key) returns (r: Result<seq<string>, Error>)
      requires Valid() && key in scene.containers && Reachable(scene, root, key) && key !in ids && scene.containers[key].faces != []
      requires WellFormedContainer(scene, scene.containers[key])
      modifies this
      ensures instances == old(instances)
      ensures triangulated == old(triangulated) + [key]
      ensures r.Ok? ==> Valid() && ids == old(ids)[key := r.value]
      ensures r.Err? ==> WellFormed(scene) && Evidence(scene, root, r.error)
    {
      hide Good, Stocked, Meshed, Logged, InstancesNamed, WellFormed, FromFaces, Shells.Holds, Append, Facets, Distinct, ValidFaces, Sourced, Evidence;
      hide InRange, Shells.Partition, Shells.Components, Shells.MinVertex, NoRepeat, Shells.InRangeClass, Shells.Pick, DefinitionId;
      FacesValid(scene, key);
      GoodParts(scene, root, definitions, homes, origins, ids, totalVertices, totalTriangles, triangulated, instances);
      triangulated := triangulated + [key];
      var vertices, ts := TriangulateFaces(scene.containers[key].faces);
      var shells, classes := Shells.SplitConnectedShells(ts);
      ghost var o := Origin(vertices, ts, classes);
      FromPieces(o, scene.containers[key].faces);
      OpenContainer(definitions, homes, origins, ids, totalVertices, totalTriangles, key, o);
      StockedSourced(scene, root, definitions, homes, origins, ids, totalVertices, totalTriangles, key, o);
      origins := origins[key := o];
      var found: seq<string> := [];
      HeldLength(ts, classes, shells);
      for i := 0 to |shells|
        invariant |found| == i
        invariant Stocked(definitions, homes, origins, ids[key := found], totalVertices, totalTriangles)
        invariant old(definitions) <= definitions && Sourced(scene, root, homes, origins)
        invariant ids == old(ids) && instances == old(instances) && origins == old(origins)[key := o] && triangulated == old(triangulated) + [key]
      {
        ShellInRange(vertices, ts, classes, shells, i);
        var added := AddSolid(key, i, vertices, shells[i], ids[key := found]);
        if added.Err? {
          return Err(added.error);
        }
        AppendIs(ids, key, found, added.value);
        found := found + [added.value];
      }
      GoodContainer(scene, root, old(definitions), old(homes), old(origins), ids, old(totalVertices), old(totalTriangles), old(triangulated), instances,
                    key, o, found, definitions, homes, totalVertices, totalTriangles);
      ids := ids[key := found];
      r := Ok(found);
    }

    /** The ids of a container's solids; meshes it on first use only. */
    method EnsureContainerMeshes(key: Key) returns (r: Result<seq<string>, Error>)
      requires Valid() && key in scene.containers && Reachable(scene, root, key)
      modifies this
      ensures instances == old(instances)
      ensures NoRepeat(triangulated)
      ensures r.Ok? ==> Valid() && key in ids && r.value == ids[key] && Extends(old(ids), ids)
      ensures key in old(ids) ==> r.Ok? && unchanged(this)
      ensures r.Err? ==> WellFormed(scene) && Evidence(scene, root, r.error)
    {
      hide Good, Stocked, Meshed, Logged, InstancesNamed, WellFormed, NoRepeat, FromFaces;
      GoodParts(scene, root, definitions, homes, origins, ids, totalVertices, totalTriangles, triangulated, instances);
      if key in ids {
        return Ok(ids[key]);
      }
      ContainerWellFormed(scene, key);
      LoggedStep(scene, ids, triangulated, key, []);
      if scene.containers[key].faces == [] {
        ghost var o := Origin([], [], []);
        EmptyContainer(scene.containers[key].faces);
        OpenContainer(definitions, homes, origins, ids, totalVertices, totalTriangles, key, o);
        GoodContainer(scene, root, definitions, homes, origins, ids, totalVertices, totalTriangles, triangulated, instances,
                      key, o, [], definitions, homes, totalVertices, totalTriangles);
        origins := origins[key := o];
        ids := ids[key := []];
        return Ok([]);
      }
      r := MeshContainer(key);
    }

    /** One instance of each of the container's own solids. */
    method PlaceOwn(key: Key, world: T, visible: bool) returns (r: Result<(), Error>)
      requires Valid() && key in scene.containers && Reachable(scene, root, key)
      modifies this
      ensures NoRepeat(triangulated)
      ensures r.Ok? ==> Valid() && key in ids && Extends(old(ids), ids)
      ensures r.Ok? ==> instances == old(instances) + Own(ids, key, world, visible)
      ensures r == Err(TooManyInstances) ==> Valid() && key in ids && Extends(old(ids), ids)
      ensures r == Err(TooManyInstances) ==> |old(instances)| + |Own(ids, key, world, visible)| > MAX_INSTANCES
      ensures r.Err? && r.error != TooManyInstances ==> WellFormed(scene) && Evidence(scene, root, r.error)
    {
      hide Good, NoRepeat, Extends, WellFormed, Evidence, Reachable, Own;
      var meshed := EnsureContainerMeshes(key);
      if meshed.Err? {
        EvidenceKinds(scene, root, meshed.error);
        return Err(meshed.error);
      }
      ghost var own := Own(ids, key, world, visible);
      OwnIs(ids, key, world, visible);
      for i := 0 to |meshed.value|
        invariant Valid() && key in ids && ids[key] == meshed.value && Extends(old(ids), ids) && NoRepeat(triangulated)
        invariant own == Own(ids, key, world, visible) && instances == old(instances) + own[..i]
      {
        if |instances| >= MAX_INSTANCES {
          return Err(TooManyInstances);
        }
        GoodInstance(scene, root, definitions, homes, origins, ids, totalVertices, totalTriangles, triangulated, instances, key, i, world, visible);
        instances := instances + [Instance(meshed.value[i], world, visible)];
      }
      r := Ok(());
    }

    /** Places the solids of `key` and of everything below it. Success yields
        exactly the naive expansion and means the nesting is acceptable; a
        nesting error means it is not. */
    method Walk(key: Key, world: T, visible: bool, path: seq<Key>, depth: nat) returns (r: Result<(), Error>)
      requires Valid() && key in scene.containers && depth == |path|
      requires Chain(scene, path + [key]) && (path + [key])[0] == root
      modifies this
      decreases MAX_DEPTH + 1 - depth
      ensures NoRepeat(triangulated)
      ensures r.Ok? ==> Valid() && Extends(old(ids), ids)
      ensures r.Ok? ==> Nested(scene, key, path) && Covered(scene, ids, key, depth)
      ensures r.Ok? ==> instances == old(instances) + Expand(scene, ids, key, world, visible, depth)
      ensures r == Err(TooDeep) || r == Err(Recursive) ==> !Nested(scene, key, path)
      ensures r == Err(TooManyInstances) ==>
                Valid() && Extends(old(ids), ids) && |old(instances)| + |Expand(scene, ids, key, world, visible, depth)| > MAX_INSTANCES
      ensures r.Err? && r.error !in {TooDeep, Recursive, TooManyInstances} ==> WellFormed(scene) && Evidence(scene, root, r.error)
    {
      hide Good, NoRepeat, WellFormed, Stocked, Meshed, Logged, InstancesNamed, Nested, Covered, Extends, Own,
           Placed, ChildrenDone, Children, Expand, ExpandChildren, Evidence, Chain, Reachable;
      GoodParts(scene, root, definitions, homes, origins, ids, totalVertices, totalTriangles, triangulated, instances);
      if Nested(scene, key, path) {
        NestedStart(scene, key, path);
      }
      if depth > MAX_DEPTH {
        return Err(TooDeep);
      }
      if key in path {
        return Err(Recursive);
      }
      PathReaches(scene, root, key, path);
      var own := PlaceOwn(key, world, visible);
      if own.Err? {
        if own.error == TooManyInstances {
          OwnInExpansion(scene, ids, key, world, visible, depth);
        } else {
          EvidenceKinds(scene, root, own.error);
        }
        return Err(own.error);
      }
      var children := Children(scene, key);
      PlacedNone(scene, ids, key, world, visible, path);
      for n := 0 to |children|
        invariant Valid() && key in ids && Extends(old(ids), ids) && NoRepeat(triangulated)
        invariant ChildrenDone(scene, ids, key, path, n)
        invariant instances == old(instances) + Placed(scene, ids, key, world, visible, depth, n)
      {
        ghost var before := ids;
        GoodParts(scene, root, definitions, homes, origins, ids, totalVertices, totalTriangles, triangulated, instances);
        ChildExists(scene, key, n);
        PathGrows(scene, root, key, path, n);
        var c := children[n];
        var walked := Walk(c.key, scene.compose(world, c.transform), visible && c.visible, path + [key], depth + 1);
        if walked.Err? {
          if Nested(scene, key, path) {
            NestedChild(scene, key, path, n);
          }
          if walked.error == TooManyInstances {
            PlacedStep(scene, before, ids, key, world, visible, path, n);
            ExtendsChain(old(ids), before, ids);
            ChildInExpansion(scene, ids, key, world, visible, depth, n);
          }
          return Err(walked.error);
        }
        ChildDone(scene, before, ids, key, path, n);
        PlacedStep(scene, before, ids, key, world, visible, path, n);
        OwnKept(before, ids, key, world, visible);
        ExtendsChain(old(ids), before, ids);
      }
      AllDone(scene, ids, key, world, visible, path);
      r := Ok(());
    }
  }
}
