/**
 * Piglet's `GltfImportCache`: the Unity objects and assets created during
 * one glTF import, kept so later phases can reuse them and `Clear` can
 * remove them all. C#'s `Dictionary` enumerates in insertion order when
 * nothing is removed, so each dictionary that `Clear` walks is a map plus
 * the sequence of its keys in insertion order.
 */
module ImportCaches {
  import opened Wrappers
  import opened Engine
  import GltfSchema
  import ImportEnv

  /** One primitive of an imported mesh: the Unity mesh and the material it is drawn with. */
  datatype Primitive = Primitive(mesh: MeshId, material: Material)

  const DefaultShader := "Piglet/MetallicRoughnessOpaque"

  function Elements<T>(s: seq<T>): set<T> {
    set x | x in s
  }

  /** No element occurs twice: each element is absent from the part before it. */
  predicate NoDuplicates<T(==)>(s: seq<T>)
    decreases |s|
  {
    |s| == 0 || (s[|s| - 1] !in s[..|s| - 1] && NoDuplicates(s[..|s| - 1]))
  }

  /** No duplicates means every element occurs at most once. */
  lemma {:induction false} NoDuplicatesCounts<T(!new)>(s: seq<T>)
    ensures NoDuplicates(s) <==> forall x :: multiset(s)[x] <= 1
  {
    if NoDuplicates(s) {
      NoDuplicatesBoundsCounts(s);
    }
    if forall x :: multiset(s)[x] <= 1 {
      CountsBoundNoDuplicates(s);
    }
  }

  lemma {:induction false} NoDuplicatesBoundsCounts<T(!new)>(s: seq<T>)
    requires NoDuplicates(s)
    ensures forall x :: multiset(s)[x] <= 1
  {
    if |s| > 0 {
      var front, last := s[..|s| - 1], s[|s| - 1];
      assert s == front + [last];
      NoDuplicatesBoundsCounts(front);
      assert multiset(s) == multiset(front) + multiset{last};
      forall x ensures multiset(s)[x] <= 1 {
        if x == last {
          assert multiset(front)[x] == 0;
        }
      }
    }
  }

  lemma {:induction false} CountsBoundNoDuplicates<T(!new)>(s: seq<T>)
    requires forall x :: multiset(s)[x] <= 1
    ensures NoDuplicates(s)
  {
    if |s| > 0 {
      var front, last := s[..|s| - 1], s[|s| - 1];
      assert s == front + [last];
      assert multiset(s) == multiset(front) + multiset{last};
      forall x ensures multiset(front)[x] <= 1 {
        assert multiset(s)[x] >= multiset(front)[x];
      }
      CountsBoundNoDuplicates(front);
      assert multiset(s)[last] == multiset(front)[last] + 1;
      assert multiset(front)[last] == 0;
    }
  }

  /** `order` lists the keys of a dictionary, each once, in insertion order. */
  ghost predicate InsertionOrder<K(!new)>(order: seq<K>, keys: set<K>) {
    NoDuplicates(order) && forall k :: k in order <==> k in keys
  }

  /** `Nodes.Values`, in insertion order. */
  function NodeValues(nodes: map<nat, ObjectId>, order: seq<nat>): (r: seq<ObjectId>)
    requires forall k :: k in order ==> k in nodes
    ensures |r| == |order| && forall i :: 0 <= i < |order| ==> r[i] == nodes[order[i]]
  {
    seq(|order|, i requires 0 <= i < |order| => nodes[order[i]])
  }

  function Tail<T>(s: seq<T>): seq<T> {
    if |s| == 0 then [] else s[1..]
  }

  /** Every primitive object except element 0 of each list, list by list in insertion order. */
  function PrimitiveTails(prims: map<nat, seq<ObjectId>>, order: seq<nat>): seq<ObjectId>
    requires forall k :: k in order ==> k in prims
  {
    if |order| == 0 then []
    else PrimitiveTails(prims, order[..|order| - 1]) + Tail(prims[order[|order| - 1]])
  }

  function SceneList(scene: Option<ObjectId>): seq<ObjectId> {
    if scene.Some? then [scene.value] else []
  }

  /** Membership in `PrimitiveTails`: exactly the elements at index 1 or more of the listed keys' lists. */
  lemma {:induction false} PrimitiveTailsElements(prims: map<nat, seq<ObjectId>>, order: seq<nat>, x: ObjectId)
    requires forall k :: k in order ==> k in prims
    ensures x in PrimitiveTails(prims, order) <==>
      exists k, i :: k in order && 1 <= i < |prims[k]| && prims[k][i] == x
  {
    if |order| > 0 {
      var front := order[..|order| - 1];
      var last := order[|order| - 1];
      PrimitiveTailsElements(prims, front, x);
      if x in Tail(prims[last]) {
        var j :| 0 <= j < |Tail(prims[last])| && Tail(prims[last])[j] == x;
        assert prims[last][j + 1] == x;
      }
      if exists k, i :: k in order && 1 <= i < |prims[k]| && prims[k][i] == x {
        var k, i :| k in order && 1 <= i < |prims[k]| && prims[k][i] == x;
        if k != last {
          assert k in front;
        } else {
          assert Tail(prims[last])[i - 1] == x;
        }
      }
    }
  }

  /** `s + t` has no duplicates when `s` and `t` have none and share no element; stated on any `u` with the same elements. */
  lemma NoDuplicatesUnion<T(!new)>(s: seq<T>, t: seq<T>, u: seq<T>)
    requires NoDuplicates(s) && NoDuplicates(t)
    requires forall x :: x in t ==> x !in s
    requires multiset(u) == multiset(s) + multiset(t)
    ensures NoDuplicates(u)
  {
    NoDuplicatesCounts(s);
    NoDuplicatesCounts(t);
    NoDuplicatesCounts(u);
    forall x ensures multiset(u)[x] <= 1 {
      if x in t {
        assert multiset(s)[x] == 0;
      } else {
        assert multiset(t)[x] == 0;
      }
    }
  }

  /** Both halves of a sequence without duplicates have none, and they are disjoint. */
  lemma NoDuplicatesSplit<T(!new)>(s: seq<T>, t: seq<T>)
    requires NoDuplicates(s + t)
    ensures NoDuplicates(s) && NoDuplicates(t)
    ensures forall x :: x in t ==> x !in s
  {
    NoDuplicatesCounts(s + t);
    NoDuplicatesCounts(s);
    NoDuplicatesCounts(t);
    forall x ensures multiset(s)[x] + multiset(t)[x] <= 1 {
      assert multiset(s + t)[x] == multiset(s)[x] + multiset(t)[x];
    }
    forall x | x in t ensures x !in s {
      assert multiset(s)[x] + multiset(t)[x] <= 1;
      assert multiset(t)[x] >= 1;
    }
  }

  /** Inserting new, distinct elements `t` before or after `b` in `a + b + c` keeps it without duplicates. */
  lemma NoDuplicatesInsert<T(!new)>(a: seq<T>, t: seq<T>, b: seq<T>, c: seq<T>)
    requires NoDuplicates(a + b + c) && NoDuplicates(t)
    requires forall x :: x in t ==> x !in a + b + c
    ensures NoDuplicates(a + t + b + c) && NoDuplicates(a + (b + t) + c)
  {
    assert multiset(a + t + b + c) == multiset(a + b + c) + multiset(t);
    NoDuplicatesUnion(a + b + c, t, a + t + b + c);
    assert multiset(a + (b + t) + c) == multiset(a + b + c) + multiset(t);
    NoDuplicatesUnion(a + b + c, t, a + (b + t) + c);
  }

  /** `PrimitiveTails` depends only on the lists of the keys it walks. */
  lemma {:induction false} PrimitiveTailsFrame(p: map<nat, seq<ObjectId>>, q: map<nat, seq<ObjectId>>, order: seq<nat>)
    requires forall k :: k in order ==> k in p && k in q && p[k] == q[k]
    ensures PrimitiveTails(p, order) == PrimitiveTails(q, order)
  {
    if |order| > 0 {
      PrimitiveTailsFrame(p, q, order[..|order| - 1]);
    }
  }

  /** The dictionaries `Clear` walks list their keys exactly, in insertion order. */
  ghost predicate OrderedState(nodes: map<nat, ObjectId>, nodeOrder: seq<nat>,
                               prims: map<nat, seq<ObjectId>>, primitiveOrder: seq<nat>)
  {
    InsertionOrder(nodeOrder, nodes.Keys) && InsertionOrder(primitiveOrder, prims.Keys)
  }

  /** The objects `Clear` destroys, in the order it destroys them. */
  function CreatedObjects(nodes: map<nat, ObjectId>, nodeOrder: seq<nat>,
                          prims: map<nat, seq<ObjectId>>, primitiveOrder: seq<nat>,
                          scene: Option<ObjectId>): seq<ObjectId>
    requires OrderedState(nodes, nodeOrder, prims, primitiveOrder)
  {
    NodeValues(nodes, nodeOrder) + PrimitiveTails(prims, primitiveOrder) + SceneList(scene)
  }

  /**
   * The cache's own invariant: insertion orders are exact, primitive 0 of
   * each list is the node's own object, and the created objects are
   * distinct.
   */
  ghost predicate ConsistentState(nodes: map<nat, ObjectId>, nodeOrder: seq<nat>,
                                  prims: map<nat, seq<ObjectId>>, primitiveOrder: seq<nat>,
                                  scene: Option<ObjectId>)
  {
    OrderedState(nodes, nodeOrder, prims, primitiveOrder) &&
    (forall k :: k in prims && |prims[k]| > 0 ==> k in nodes && prims[k][0] == nodes[k]) &&
    NoDuplicates(CreatedObjects(nodes, nodeOrder, prims, primitiveOrder, scene))
  }

  ghost predicate AllBelow(s: seq<ObjectId>, bound: int) {
    forall x :: x in s ==> x < bound
  }

  /** The cache invariant on its collections' values: consistent, and every created object allocated before `nextId`. */
  ghost predicate CacheInvariant(nodes: map<nat, ObjectId>, nodeOrder: seq<nat>,
                                 prims: map<nat, seq<ObjectId>>, primitiveOrder: seq<nat>,
                                 scene: Option<ObjectId>, nextId: int)
  {
    ConsistentState(nodes, nodeOrder, prims, primitiveOrder, scene) &&
    AllBelow(CreatedObjects(nodes, nodeOrder, prims, primitiveOrder, scene), nextId)
  }

  /** Adding a node keeps its insertion order exact and appends its object to `Nodes.Values`. */
  lemma AddNodeOrdered(nodes: map<nat, ObjectId>, nodeOrder: seq<nat>,
                       prims: map<nat, seq<ObjectId>>, primitiveOrder: seq<nat>, k: nat, id: ObjectId)
    requires OrderedState(nodes, nodeOrder, prims, primitiveOrder) && k !in nodes
    ensures OrderedState(nodes[k := id], nodeOrder + [k], prims, primitiveOrder)
    ensures NodeValues(nodes[k := id], nodeOrder + [k]) == NodeValues(nodes, nodeOrder) + [id]
  {
    assert k !in nodeOrder;
    NoDuplicatesUnion(nodeOrder, [k], nodeOrder + [k]);
  }

  /** Adding a node whose object is new keeps the created objects distinct. */
  lemma AddNodeDistinct(nodes: map<nat, ObjectId>, nodeOrder: seq<nat>,
                        prims: map<nat, seq<ObjectId>>, primitiveOrder: seq<nat>,
                        scene: Option<ObjectId>, k: nat, id: ObjectId)
    requires OrderedState(nodes, nodeOrder, prims, primitiveOrder)
    requires NoDuplicates(CreatedObjects(nodes, nodeOrder, prims, primitiveOrder, scene))
    requires id !in CreatedObjects(nodes, nodeOrder, prims, primitiveOrder, scene)
    requires OrderedState(nodes[k := id], nodeOrder + [k], prims, primitiveOrder)
    requires NodeValues(nodes[k := id], nodeOrder + [k]) == NodeValues(nodes, nodeOrder) + [id]
    ensures NoDuplicates(CreatedObjects(nodes[k := id], nodeOrder + [k], prims, primitiveOrder, scene))
  {
    NoDuplicatesInsert(NodeValues(nodes, nodeOrder), [id], PrimitiveTails(prims, primitiveOrder), SceneList(scene));
  }

  /** Adding a node whose object is new keeps the created objects below `bound`. */
  lemma AddNodeBelow(nodes: map<nat, ObjectId>, nodeOrder: seq<nat>,
                     prims: map<nat, seq<ObjectId>>, primitiveOrder: seq<nat>,
                     scene: Option<ObjectId>, k: nat, id: ObjectId, bound: int)
    requires OrderedState(nodes, nodeOrder, prims, primitiveOrder)
    requires AllBelow(CreatedObjects(nodes, nodeOrder, prims, primitiveOrder, scene), bound)
    requires id < bound
    requires OrderedState(nodes[k := id], nodeOrder + [k], prims, primitiveOrder)
    requires NodeValues(nodes[k := id], nodeOrder + [k]) == NodeValues(nodes, nodeOrder) + [id]
    ensures AllBelow(CreatedObjects(nodes[k := id], nodeOrder + [k], prims, primitiveOrder, scene), bound)
  {
    InsertBelow(NodeValues(nodes, nodeOrder), [id], PrimitiveTails(prims, primitiveOrder), SceneList(scene), bound);
  }

  /** Objects below `bound` inserted into a sequence of objects below `bound`, in either of two places. */
  lemma InsertBelow(a: seq<ObjectId>, t: seq<ObjectId>, b: seq<ObjectId>, c: seq<ObjectId>, bound: int)
    requires AllBelow(a + b + c, bound) && AllBelow(t, bound)
    ensures AllBelow(a + t + b + c, bound) && AllBelow(a + (b + t) + c, bound)
  {
    forall x | x in a + t + b + c ensures x < bound {
      assert x in a + b + c || x in t;
    }
    forall x | x in a + (b + t) + c ensures x < bound {
      assert x in a + b + c || x in t;
    }
  }

  /** Creating further objects in the world keeps the invariant: the cache's objects stay below the advancing `nextId`. */
  lemma CacheInvariantGrows(nodes: map<nat, ObjectId>, nodeOrder: seq<nat>,
                            prims: map<nat, seq<ObjectId>>, primitiveOrder: seq<nat>,
                            scene: Option<ObjectId>, before: int, after: int)
    requires CacheInvariant(nodes, nodeOrder, prims, primitiveOrder, scene, before) && before <= after
    ensures CacheInvariant(nodes, nodeOrder, prims, primitiveOrder, scene, after)
  {
  }

  /** Adding a node whose object is new keeps the cache consistent. */
  lemma AddNodeKeeps(nodes: map<nat, ObjectId>, nodeOrder: seq<nat>,
                     prims: map<nat, seq<ObjectId>>, primitiveOrder: seq<nat>,
                     scene: Option<ObjectId>, k: nat, id: ObjectId, bound: int)
    requires CacheInvariant(nodes, nodeOrder, prims, primitiveOrder, scene, bound)
    requires k !in nodes && id < bound
    requires id !in CreatedObjects(nodes, nodeOrder, prims, primitiveOrder, scene)
    ensures CacheInvariant(nodes[k := id], nodeOrder + [k], prims, primitiveOrder, scene, bound)
  {
    AddNodeOrdered(nodes, nodeOrder, prims, primitiveOrder, k, id);
    AddNodeDistinct(nodes, nodeOrder, prims, primitiveOrder, scene, k, id);
    AddNodeBelow(nodes, nodeOrder, prims, primitiveOrder, scene, k, id, bound);
  }

  /** Adding a primitive list keeps the insertion order exact and appends the list's tail to `PrimitiveTails`. */
  lemma AddPrimitivesOrdered(nodes: map<nat, ObjectId>, nodeOrder: seq<nat>,
                             prims: map<nat, seq<ObjectId>>, primitiveOrder: seq<nat>, k: nat, objects: seq<ObjectId>)
    requires OrderedState(nodes, nodeOrder, prims, primitiveOrder) && k !in prims
    ensures OrderedState(nodes, nodeOrder, prims[k := objects], primitiveOrder + [k])
    ensures PrimitiveTails(prims[k := objects], primitiveOrder + [k]) == PrimitiveTails(prims, primitiveOrder) + Tail(objects)
  {
    var order' := primitiveOrder + [k];
    assert k !in primitiveOrder;
    NoDuplicatesUnion(primitiveOrder, [k], order');
    PrimitiveTailsFrame(prims, prims[k := objects], primitiveOrder);
    assert order'[..|order'| - 1] == primitiveOrder;
  }

  /** Adding a primitive list whose tail is new keeps the created objects distinct. */
  lemma AddPrimitivesDistinct(nodes: map<nat, ObjectId>, nodeOrder: seq<nat>,
                              prims: map<nat, seq<ObjectId>>, primitiveOrder: seq<nat>,
                              scene: Option<ObjectId>, k: nat, objects: seq<ObjectId>)
    requires OrderedState(nodes, nodeOrder, prims, primitiveOrder)
    requires NoDuplicates(CreatedObjects(nodes, nodeOrder, prims, primitiveOrder, scene))
    requires NoDuplicates(Tail(objects))
    requires forall x :: x in Tail(objects) ==> x !in CreatedObjects(nodes, nodeOrder, prims, primitiveOrder, scene)
    requires OrderedState(nodes, nodeOrder, prims[k := objects], primitiveOrder + [k])
    requires PrimitiveTails(prims[k := objects], primitiveOrder + [k]) == PrimitiveTails(prims, primitiveOrder) + Tail(objects)
    ensures NoDuplicates(CreatedObjects(nodes, nodeOrder, prims[k := objects], primitiveOrder + [k], scene))
  {
    NoDuplicatesInsert(NodeValues(nodes, nodeOrder), Tail(objects), PrimitiveTails(prims, primitiveOrder), SceneList(scene));
  }

  /** Adding a primitive list whose tail is new keeps the created objects below `bound`. */
  lemma AddPrimitivesBelow(nodes: map<nat, ObjectId>, nodeOrder: seq<nat>,
                           prims: map<nat, seq<ObjectId>>, primitiveOrder: seq<nat>,
                           scene: Option<ObjectId>, k: nat, objects: seq<ObjectId>, bound: int)
    requires OrderedState(nodes, nodeOrder, prims, primitiveOrder)
    requires AllBelow(CreatedObjects(nodes, nodeOrder, prims, primitiveOrder, scene), bound)
    requires forall x :: x in Tail(objects) ==> x < bound
    requires OrderedState(nodes, nodeOrder, prims[k := objects], primitiveOrder + [k])
    requires PrimitiveTails(prims[k := objects], primitiveOrder + [k]) == PrimitiveTails(prims, primitiveOrder) + Tail(objects)
    ensures AllBelow(CreatedObjects(nodes, nodeOrder, prims[k := objects], primitiveOrder + [k], scene), bound)
  {
    InsertBelow(NodeValues(nodes, nodeOrder), Tail(objects), PrimitiveTails(prims, primitiveOrder), SceneList(scene), bound);
  }

  /** Adding a node's primitive list, element 0 being the node's object and the rest new, keeps the cache consistent. */
  lemma AddPrimitivesKeeps(nodes: map<nat, ObjectId>, nodeOrder: seq<nat>,
                           prims: map<nat, seq<ObjectId>>, primitiveOrder: seq<nat>,
                           scene: Option<ObjectId>, k: nat, objects: seq<ObjectId>, bound: int)
    requires CacheInvariant(nodes, nodeOrder, prims, primitiveOrder, scene, bound)
    requires k !in prims
    requires |objects| > 0 ==> k in nodes && objects[0] == nodes[k]
    requires NoDuplicates(Tail(objects))
    requires forall x :: x in Tail(objects) ==> x !in CreatedObjects(nodes, nodeOrder, prims, primitiveOrder, scene) && x < bound
    ensures CacheInvariant(nodes, nodeOrder, prims[k := objects], primitiveOrder + [k], scene, bound)
  {
    AddPrimitivesOrdered(nodes, nodeOrder, prims, primitiveOrder, k, objects);
    AddPrimitivesDistinct(nodes, nodeOrder, prims, primitiveOrder, scene, k, objects);
    AddPrimitivesBelow(nodes, nodeOrder, prims, primitiveOrder, scene, k, objects, bound);
  }

  /** Replacing the scene root by a new object keeps the cache consistent. */
  lemma SetSceneKeeps(nodes: map<nat, ObjectId>, nodeOrder: seq<nat>,
                      prims: map<nat, seq<ObjectId>>, primitiveOrder: seq<nat>,
                      scene: Option<ObjectId>, id: ObjectId, bound: int)
    requires CacheInvariant(nodes, nodeOrder, prims, primitiveOrder, scene, bound)
    requires id !in CreatedObjects(nodes, nodeOrder, prims, primitiveOrder, scene) && id < bound
    ensures CacheInvariant(nodes, nodeOrder, prims, primitiveOrder, Some(id), bound)
  {
    var ab := NodeValues(nodes, nodeOrder) + PrimitiveTails(prims, primitiveOrder);
    var before := CreatedObjects(nodes, nodeOrder, prims, primitiveOrder, scene);
    assert before == ab + SceneList(scene);
    NoDuplicatesSplit(ab, SceneList(scene));
    var after := CreatedObjects(nodes, nodeOrder, prims, primitiveOrder, Some(id));
    assert after == ab + [id];
    NoDuplicatesUnion(ab, [id], after);
    forall x | x in after ensures x < bound {
      assert x in before || x == id;
    }
  }

  /** `TryGetValue` on a dictionary of lists, with a missing key read as an empty list. */
  function ListOrEmpty(m: map<nat, seq<nat>>, k: nat): (r: seq<nat>)
    ensures k in m ==> r == m[k]
    ensures k !in m ==> r == []
  {
    if k in m then m[k] else []
  }

  /** What destroying objects changes in the world: its log, its live objects and its deferred destructions. */
  datatype Snapshot = Snapshot(log: seq<ObjectId>, objects: map<ObjectId, GameObject>, pending: seq<ObjectId>)

  function SnapshotOf(w: World): Snapshot
    reads w
  {
    Snapshot(w.destroyLog, w.objects, w.pendingDestroy)
  }

  /**
   * Going from `before` to `after` destroyed `s` in order: each is logged;
   * an immediate destruction removes the objects, a deferred one queues them.
   */
  predicate Destroyed(immediate: bool, before: Snapshot, after: Snapshot, s: seq<ObjectId>) {
    after.log == before.log + s &&
    (immediate ==> after.objects == before.objects - Elements(s) && after.pending == before.pending) &&
    (!immediate ==> after.objects == before.objects && after.pending == before.pending + s)
  }

  /** Destroying `s` and then `t` destroys `s + t`. */
  lemma DestroyedTrans(immediate: bool, s0: Snapshot, s1: Snapshot, s2: Snapshot, s: seq<ObjectId>, t: seq<ObjectId>)
    requires Destroyed(immediate, s0, s1, s) && Destroyed(immediate, s1, s2, t)
    ensures Destroyed(immediate, s0, s2, s + t)
  {
    assert Elements(s + t) == Elements(s) + Elements(t);
  }

  class GltfImportCache {
    /** The scene the created objects live in. */
    const world: World
    /** `EditorGltfImportCache` overrides `Destroy` with `Object.DestroyImmediate`. */
    const immediateDestroy: bool

    var defaultMaterial: Material
    var buffers: seq<Option<GltfSchema.Bytes>>
    var textures: seq<Option<Texture2D>>
    var materials: seq<Material>
    var meshes: seq<seq<Primitive>>
    var nodes: map<nat, ObjectId>
    var nodeOrder: seq<nat>
    var scene: Option<ObjectId>
    var meshToNodes: map<nat, seq<nat>>
    /** Per node: the object of each primitive of its mesh; element 0 is the node's own object. */
    var nodeToMeshPrimitives: map<nat, seq<ObjectId>>
    var primitiveOrder: seq<nat>
    var meshesWithMorphTargets: seq<nat>
    var skinToNodes: map<nat, seq<nat>>

    ghost predicate Ordered()
      reads this`nodes, this`nodeOrder, this`nodeToMeshPrimitives, this`primitiveOrder
    {
      OrderedState(nodes, nodeOrder, nodeToMeshPrimitives, primitiveOrder)
    }

    /** The objects `Clear` destroys, in the order it destroys them. */
    function Created(): seq<ObjectId>
      reads this`nodes, this`nodeOrder, this`nodeToMeshPrimitives, this`primitiveOrder, this`scene
      requires Ordered()
    {
      CreatedObjects(nodes, nodeOrder, nodeToMeshPrimitives, primitiveOrder, scene)
    }

    /** Every object the cache refers to: node objects, primitive objects and the scene root. */
    function Referenced(): set<ObjectId>
      reads this`nodes, this`nodeOrder, this`nodeToMeshPrimitives, this`primitiveOrder, this`scene
    {
      (set k | k in nodes :: nodes[k]) +
      (set k, i | k in nodeToMeshPrimitives && 0 <= i < |nodeToMeshPrimitives[k]| :: nodeToMeshPrimitives[k][i]) +
      Elements(SceneList(scene))
    }

    /** The cache's collections are consistent and refer only to objects the world has allocated. */
    ghost predicate Consistent()
      reads this`nodes, this`nodeOrder, this`nodeToMeshPrimitives, this`primitiveOrder, this`scene, world`nextId
    {
      CacheInvariant(nodes, nodeOrder, nodeToMeshPrimitives, primitiveOrder, scene, world.nextId)
    }

    /** Consistency depends only on the node and primitive collections, the scene and the world's next id. */
    twostate lemma ConsistentKept()
      requires old(Consistent())
      requires nodes == old(nodes) && nodeOrder == old(nodeOrder) && scene == old(scene)
      requires nodeToMeshPrimitives == old(nodeToMeshPrimitives) && primitiveOrder == old(primitiveOrder)
      requires world.nextId == old(world.nextId)
      ensures Consistent()
    {
    }

    /** The cache invariant: a consistent cache over objects of a valid world. */
    ghost predicate Valid()
      reads this`nodes, this`nodeOrder, this`nodeToMeshPrimitives, this`primitiveOrder, this`scene, world
    {
      world.Valid() && Consistent()
    }

    /**
     * `GltfImportCache()`: the default material and empty collections. The
     * `Textures`, `Materials` and `Meshes` lists are created by the derived
     * caches; both start them empty.
     */
    constructor (world: World, immediateDestroy: bool)
      requires world.Valid()
      ensures Valid() && this.world == world && this.immediateDestroy == immediateDestroy
      ensures defaultMaterial == NewMaterial(DefaultShader)
      ensures buffers == [] && textures == [] && materials == [] && meshes == []
      ensures nodes == map[] && nodeOrder == [] && scene.None?
      ensures meshToNodes == map[] && nodeToMeshPrimitives == map[] && primitiveOrder == []
      ensures meshesWithMorphTargets == [] && skinToNodes == map[]
    {
      this.world := world;
      this.immediateDestroy := immediateDestroy;
      defaultMaterial := NewMaterial(DefaultShader);
      buffers := [];
      textures := [];
      materials := [];
      meshes := [];
      nodes := map[];
      nodeOrder := [];
      scene := None;
      meshToNodes := map[];
      nodeToMeshPrimitives := map[];
      primitiveOrder := [];
      meshesWithMorphTargets := [];
      skinToNodes := map[];
    }

    /** `s` has been destroyed, in order, since the start of the enclosing method, and nothing else changed in the world. */
    twostate predicate DestroyedInOrder(s: seq<ObjectId>)
      reads this, world
    {
      Destroyed(immediateDestroy, old(SnapshotOf(world)), SnapshotOf(world), s) &&
      world.nextId == old(world.nextId) && world.meshes == old(world.meshes) &&
      world.nextMesh == old(world.nextMesh) && world.errorLog == old(world.errorLog)
    }

    /** `Destroy`: deferred `Object.Destroy`, or `Object.DestroyImmediate` in the editor cache. */
    method DestroyObject(id: ObjectId)
      requires world.Valid()
      modifies world
      ensures world.Valid()
      ensures DestroyedInOrder([id])
    {
      if immediateDestroy {
        world.DestroyImmediate(id);
      } else {
        world.Destroy(id);
      }
      assert Elements([id]) == {id};
    }

    /** Destroys `objects` from index 1 on: the inner loop of `Clear`. */
    method DestroyAllButFirst(objects: seq<ObjectId>)
      requires world.Valid()
      modifies world
      ensures world.Valid()
      ensures DestroyedInOrder(Tail(objects))
    {
      ghost var done: seq<ObjectId> := [];
      for j := 0 to |objects|
        invariant world.Valid()
        invariant done == (if j <= 1 then [] else objects[1..j])
        invariant DestroyedInOrder(done)
      {
        if j != 0 {
          label before:
          DestroyObject(objects[j]);
          DestroyedTrans(immediateDestroy, old(SnapshotOf(world)), old@before(SnapshotOf(world)), SnapshotOf(world), done, [objects[j]]);
          assert done + [objects[j]] == objects[1..j + 1];
          done := done + [objects[j]];
        }
      }
      assert done == Tail(objects);
    }

    /** The first loop of `Clear`: every node object, in insertion order. */
    method DestroyNodes()
      requires world.Valid() && Ordered()
      modifies world
      ensures world.Valid()
      ensures DestroyedInOrder(NodeValues(nodes, nodeOrder))
    {
      ghost var done: seq<ObjectId> := [];
      for i := 0 to |nodeOrder|
        invariant world.Valid()
        invariant done == NodeValues(nodes, nodeOrder[..i])
        invariant DestroyedInOrder(done)
      {
        label before:
        DestroyObject(nodes[nodeOrder[i]]);
        DestroyedTrans(immediateDestroy, old(SnapshotOf(world)), old@before(SnapshotOf(world)), SnapshotOf(world), done, [nodes[nodeOrder[i]]]);
        done := done + [nodes[nodeOrder[i]]];
      }
      assert nodeOrder[..|nodeOrder|] == nodeOrder;
    }

    /** The second loop of `Clear`: every primitive object but the first of each list. */
    method DestroyPrimitives()
      requires world.Valid() && Ordered()
      modifies world
      ensures world.Valid()
      ensures DestroyedInOrder(PrimitiveTails(nodeToMeshPrimitives, primitiveOrder))
    {
      ghost var done: seq<ObjectId> := [];
      for i := 0 to |primitiveOrder|
        invariant world.Valid()
        invariant done == PrimitiveTails(nodeToMeshPrimitives, primitiveOrder[..i])
        invariant DestroyedInOrder(done)
      {
        label before:
        DestroyAllButFirst(nodeToMeshPrimitives[primitiveOrder[i]]);
        DestroyedTrans(immediateDestroy, old(SnapshotOf(world)), old@before(SnapshotOf(world)), SnapshotOf(world), done, Tail(nodeToMeshPrimitives[primitiveOrder[i]]));
        assert primitiveOrder[..i + 1][..i] == primitiveOrder[..i];
        done := done + Tail(nodeToMeshPrimitives[primitiveOrder[i]]);
      }
      assert primitiveOrder[..|primitiveOrder|] == primitiveOrder;
    }

    /**
     * `Clear`: destroys every node object, then every primitive object
     * except element 0 of each list, then the scene root when there is one.
     * The cache's own collections are left as they are.
     */
    method Clear()
      requires Valid()
      modifies world
      ensures Valid()
      ensures DestroyedInOrder(Created())
    {
      ghost var a := NodeValues(nodes, nodeOrder);
      ghost var b := PrimitiveTails(nodeToMeshPrimitives, primitiveOrder);
      DestroyNodes();
      label nodesDone:
      DestroyPrimitives();
      DestroyedTrans(immediateDestroy, old(SnapshotOf(world)), old@nodesDone(SnapshotOf(world)), SnapshotOf(world), a, b);
      label primitivesDone:
      if scene.Some? {
        DestroyObject(scene.value);
        DestroyedTrans(immediateDestroy, old(SnapshotOf(world)), old@primitivesDone(SnapshotOf(world)), SnapshotOf(world), a + b, [scene.value]);
      } else {
        assert a + b + SceneList(scene) == a + b;
      }
    }

    /**
     * With primitive 0 of each list being the node's own object, `Clear`
     * reaches every object the cache refers to, and each exactly once.
     */
    lemma ClearDestroysEachOnce()
      requires Valid()
      ensures NoDuplicates(Created())
      ensures Elements(Created()) == Referenced()
    {
      var prims := nodeToMeshPrimitives;
      forall x | x in Referenced() ensures x in Created() {
        if k :| k in nodes && nodes[k] == x {
          var i :| 0 <= i < |nodeOrder| && nodeOrder[i] == k;
          assert NodeValues(nodes, nodeOrder)[i] == x;
        } else if k, i :| k in prims && 0 <= i < |prims[k]| && prims[k][i] == x {
          PrimitiveTailsElements(prims, primitiveOrder, x);
        }
      }
      forall x | x in Created() ensures x in Referenced() {
        if x in NodeValues(nodes, nodeOrder) {
          var i :| 0 <= i < |nodeOrder| && NodeValues(nodes, nodeOrder)[i] == x;
          assert nodes[nodeOrder[i]] == x;
        } else if x in PrimitiveTails(prims, primitiveOrder) {
          PrimitiveTailsElements(prims, primitiveOrder, x);
        }
      }
    }

    /** `Buffers.Add(data)`. */
    method AppendBuffer(b: Option<GltfSchema.Bytes>)
      modifies this`buffers
      ensures buffers == old(buffers) + [b]
    {
      buffers := buffers + [b];
    }

    /** `Textures.Add(texture)`; `None` is the null placeholder of a texture still loading. */
    method AppendTexture(t: Option<Texture2D>)
      modifies this`textures
      ensures textures == old(textures) + [t]
    {
      textures := textures + [t];
    }

    /** `Textures[i] = texture`; an index past the end throws. */
    method SetTexture(i: nat, t: Option<Texture2D>) returns (outcome: Outcome<ImportEnv.ImportError>)
      modifies this`textures
      ensures outcome.Pass? <==> i < |old(textures)|
      ensures outcome.Pass? ==> textures == old(textures)[i := t]
      ensures outcome.Fail? ==> outcome.error == ImportEnv.ArgumentOutOfRange && textures == old(textures)
    {
      if i >= |textures| {
        return Fail(ImportEnv.ArgumentOutOfRange);
      }
      textures := textures[i := t];
      outcome := Pass;
    }

    /** `Materials.Add(material)`. */
    method AppendMaterial(m: Material)
      modifies this`materials
      ensures materials == old(materials) + [m]
    {
      materials := materials + [m];
    }

    /** `Meshes.Add(mesh)`: the primitives of one glTF mesh. */
    method AppendMesh(primitives: seq<Primitive>)
      modifies this`meshes
      ensures meshes == old(meshes) + [primitives]
    {
      meshes := meshes + [primitives];
    }

    /** `MeshesWithMorphTargets.Add(meshId)`. */
    method AppendMorphMesh(meshIndex: nat)
      modifies this`meshesWithMorphTargets
      ensures meshesWithMorphTargets == old(meshesWithMorphTargets) + [meshIndex]
    {
      meshesWithMorphTargets := meshesWithMorphTargets + [meshIndex];
    }
  }
}
