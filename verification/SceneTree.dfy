/** A scene of containers nested by instances, and what walking it must yield. */
module SceneTree {
  import opened Welding

  const MAX_DEPTH: nat := 32

  type Key = string

  /** A placed group or component: which container, where, and whether shown. */
  datatype Child<T> = Child(key: Key, transform: T, visible: bool)

  /** Visible faces and placed children, in entity order. */
  datatype Container<T> = Container(faces: seq<Face>, children: seq<Child<T>>)

  datatype Scene<!T> = Scene(containers: map<Key, Container<T>>, compose: (T, T) -> T)

  datatype Instance<T> = Instance(definition: string, transform: T, visible: bool)

  ghost predicate WellFormedContainer<T>(scene: Scene<T>, c: Container<T>) {
    ValidFaces(c.faces) && forall i :: 0 <= i < |c.children| ==> c.children[i].key in scene.containers
  }

  /** Faces index their own points and every child exists; cycles are allowed. */
  ghost predicate WellFormed<T>(scene: Scene<T>) {
    forall k :: k in scene.containers ==> WellFormedContainer(scene, scene.containers[k])
  }

  function Children<T>(scene: Scene<T>, key: Key): seq<Child<T>> {
    if key in scene.containers then scene.containers[key].children else []
  }

  // ---------------------------------------------------------------- nesting

  /** No container below `key` is too deep or inside itself. */
  ghost predicate Nested<T>(scene: Scene<T>, key: Key, path: seq<Key>)
    decreases MAX_DEPTH + 1 - |path|
  {
    && |path| <= MAX_DEPTH
    && key !in path
    && forall i :: 0 <= i < |Children(scene, key)| ==> Nested(scene, Children(scene, key)[i].key, path + [key])
  }

  ghost predicate Holds<T>(scene: Scene<T>, outer: Key, inner: Key) {
    exists i :: 0 <= i < |Children(scene, outer)| && Children(scene, outer)[i].key == inner
  }

  /** Containers each placed directly in the one before. */
  ghost predicate Chain<T>(scene: Scene<T>, chain: seq<Key>) {
    forall i :: 0 <= i < |chain| - 1 ==> Holds(scene, chain[i], chain[i + 1])
  }

  /** The container is the root or placed below it. */
  ghost predicate Reachable<T>(scene: Scene<T>, root: Key, key: Key) {
    exists chain :: |chain| > 0 && Chain(scene, chain) && chain[0] == root && chain[|chain| - 1] == key
  }

  lemma PathReaches<T>(scene: Scene<T>, root: Key, key: Key, path: seq<Key>)
    requires Chain(scene, path + [key]) && (path + [key])[0] == root
    ensures Reachable(scene, root, key)
  {
    var chain := path + [key];
    assert chain[|chain| - 1] == key;
  }

  lemma PathGrows<T>(scene: Scene<T>, root: Key, key: Key, path: seq<Key>, n: nat)
    requires Chain(scene, path + [key]) && (path + [key])[0] == root && n < |Children(scene, key)|
    ensures var child := Children(scene, key)[n].key;
            Chain(scene, path + [key] + [child]) && (path + [key] + [child])[0] == root
  {
    var (chain, child) := (path + [key], Children(scene, key)[n].key);
    assert Holds(scene, key, child);
    forall i | 0 <= i < |chain + [child]| - 1
      ensures Holds(scene, (chain + [child])[i], (chain + [child])[i + 1])
    {
      if i < |chain| - 1 {
        assert Holds(scene, chain[i], chain[i + 1]);
      }
    }
  }

  ghost predicate NoRepeat(chain: seq<Key>) {
    forall i, j :: 0 <= i < j < |chain| ==> chain[i] != chain[j]
  }

  ghost predicate Acceptable(chain: seq<Key>) {
    |chain| <= MAX_DEPTH + 1 && NoRepeat(chain)
  }

  lemma {:induction false} NestedBounds<T>(scene: Scene<T>, key: Key, path: seq<Key>, chain: seq<Key>)
    requires Nested(scene, key, path) && NoRepeat(path)
    requires Chain(scene, chain) && path + [key] <= chain
    ensures Acceptable(chain)
    decreases |chain| - |path|
  {
    if |chain| == |path| + 1 {
      assert chain == path + [key];
    } else {
      var inner := chain[|path| + 1];
      assert chain[|path|] == key;
      assert Holds(scene, chain[|path|], chain[|path| + 1]);
      assert path + [key] + [inner] <= chain;
      NestedBounds(scene, inner, path + [key], chain);
    }
  }

  lemma {:induction false} BadChain<T>(scene: Scene<T>, key: Key, path: seq<Key>) returns (chain: seq<Key>)
    requires !Nested(scene, key, path) && Chain(scene, path + [key])
    ensures Chain(scene, chain) && path + [key] <= chain && !Acceptable(chain)
    decreases MAX_DEPTH + 1 - |path|
  {
    chain := path + [key];
    if |path| <= MAX_DEPTH && key !in path {
      var i :| 0 <= i < |Children(scene, key)| && !Nested(scene, Children(scene, key)[i].key, path + [key]);
      var inner := Children(scene, key)[i].key;
      assert Holds(scene, key, inner);
      chain := BadChain(scene, inner, path + [key]);
    } else if key in path {
      var i :| 0 <= i < |path| && path[i] == key;
      assert chain[i] == chain[|path|];
    }
  }

  ghost predicate AllChainsAcceptable<T>(scene: Scene<T>, root: Key) {
    forall chain :: |chain| > 0 && chain[0] == root && Chain(scene, chain) ==> Acceptable(chain)
  }

  /** The depth-first check from the root is exactly: no chain of placements is
      longer than the limit and none comes back to a container it passed. */
  lemma NestedIsAcceptable<T>(scene: Scene<T>, root: Key)
    ensures Nested(scene, root, []) <==> AllChainsAcceptable(scene, root)
  {
    if Nested(scene, root, []) {
      forall chain | |chain| > 0 && chain[0] == root && Chain(scene, chain)
        ensures Acceptable(chain)
      {
        NestedBounds(scene, root, [], chain);
      }
    } else {
      var chain := BadChain(scene, root, []);
      assert chain[0] == root;
    }
  }

  // ---------------------------------------------------------------- expansion

  type Ids = map<Key, seq<string>>

  /** One instance per definition of the container. */
  function Own<T>(ids: Ids, key: Key, world: T, visible: bool): seq<Instance<T>> {
    if key in ids then seq(|ids[key]|, i requires 0 <= i < |ids[key]| => Instance(ids[key][i], world, visible)) else []
  }

  /** Every placement of every definition below `key`, outermost first: the
      world transform is composed and visibility conjoined along the chain. */
  function Expand<T>(scene: Scene<T>, ids: Ids, key: Key, world: T, visible: bool, depth: nat): seq<Instance<T>>
    decreases MAX_DEPTH + 1 - depth, 1, 0
  {
    if depth > MAX_DEPTH then []
    else Own(ids, key, world, visible) + ExpandChildren(scene, ids, key, world, visible, depth, |Children(scene, key)|)
  }

  /** The expansion of the first n children. */
  function ExpandChildren<T>(scene: Scene<T>, ids: Ids, key: Key, world: T, visible: bool, depth: nat, n: nat): seq<Instance<T>>
    requires depth <= MAX_DEPTH && n <= |Children(scene, key)|
    decreases MAX_DEPTH + 1 - depth, 0, n
  {
    if n == 0 then []
    else
      var c := Children(scene, key)[n - 1];
      ExpandChildren(scene, ids, key, world, visible, depth, n - 1)
      + Expand(scene, ids, c.key, scene.compose(world, c.transform), visible && c.visible, depth + 1)
  }

  /** Every container below `key` has its definitions. */
  ghost predicate Covered<T>(scene: Scene<T>, ids: Ids, key: Key, depth: nat)
    decreases MAX_DEPTH + 1 - depth
  {
    depth <= MAX_DEPTH ==>
      && key in ids
      && forall i :: 0 <= i < |Children(scene, key)| ==> Covered(scene, ids, Children(scene, key)[i].key, depth + 1)
  }

  ghost predicate Extends(ids: Ids, ids': Ids) {
    forall k :: k in ids ==> k in ids' && ids'[k] == ids[k]
  }

  lemma {:induction false} CoveredGrows<T>(scene: Scene<T>, ids: Ids, ids': Ids, key: Key, depth: nat)
    requires Extends(ids, ids') && Covered(scene, ids, key, depth)
    ensures Covered(scene, ids', key, depth)
    decreases MAX_DEPTH + 1 - depth
  {
    if depth <= MAX_DEPTH {
      forall i | 0 <= i < |Children(scene, key)|
        ensures Covered(scene, ids', Children(scene, key)[i].key, depth + 1)
      {
        CoveredGrows(scene, ids, ids', Children(scene, key)[i].key, depth + 1);
      }
    }
  }

  /** Definitions added later do not change an expansion that had all its own. */
  lemma {:induction false} ExpandGrows<T>(scene: Scene<T>, ids: Ids, ids': Ids, key: Key, world: T, visible: bool, depth: nat)
    requires Extends(ids, ids') && Covered(scene, ids, key, depth)
    ensures Expand(scene, ids', key, world, visible, depth) == Expand(scene, ids, key, world, visible, depth)
    decreases MAX_DEPTH + 1 - depth, 1, 0
  {
    if depth <= MAX_DEPTH {
      ExpandChildrenGrows(scene, ids, ids', key, world, visible, depth, |Children(scene, key)|);
    }
  }

  lemma {:induction false} ExpandChildrenGrows<T>(scene: Scene<T>, ids: Ids, ids': Ids, key: Key, world: T, visible: bool, depth: nat, n: nat)
    requires Extends(ids, ids') && depth <= MAX_DEPTH && n <= |Children(scene, key)|
    requires forall i :: 0 <= i < n ==> Covered(scene, ids, Children(scene, key)[i].key, depth + 1)
    ensures ExpandChildren(scene, ids', key, world, visible, depth, n) == ExpandChildren(scene, ids, key, world, visible, depth, n)
    decreases MAX_DEPTH + 1 - depth, 0, n
  {
    if n > 0 {
      var c := Children(scene, key)[n - 1];
      ExpandChildrenGrows(scene, ids, ids', key, world, visible, depth, n - 1);
      ExpandGrows(scene, ids, ids', c.key, scene.compose(world, c.transform), visible && c.visible, depth + 1);
    }
  }
}
