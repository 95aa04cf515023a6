/**
 * The small part of the Unity engine that the modelled code touches: a
 * heap of GameObjects addressed by instance id, mesh assets addressed by
 * id, material and texture values, the destroy calls issued, and the
 * console's error log.
 */
module Engine {
  import opened Wrappers
  import opened UnityMath

  /** Instance id of a GameObject (its Transform shares the id). */
  type ObjectId = int

  /** Instance id of a Mesh asset. */
  type MeshId = int

  /** Opaque handle of decoded image pixels. */
  type ImageRef = int

  /** Opaque 4x4 matrix value (bind poses are not computed on). */
  type Matrix = int

  /** A transform's local position, rotation and scale. */
  datatype Trs = Trs(position: Vec3, rotation: Quat, scale: Vec3)

  const IdentityTrs := Trs(Vec3(0.0, 0.0, 0.0), Quat(0.0, 0.0, 0.0, 1.0), Vec3(1.0, 1.0, 1.0))

  datatype FilterMode = Point | Bilinear | Trilinear

  datatype TextureWrapMode = Repeat | Clamp | Mirror | MirrorOnce

  /** A `Texture2D`: its pixels, sampling settings and, in the editor, the asset file behind it. */
  datatype Texture2D = Texture2D(image: ImageRef, filterMode: FilterMode, wrapMode: TextureWrapMode,
                                 asset: Option<string>)

  /** A `Material`: shader name, display name and the properties set on it. */
  datatype Material = Material(
    shader: string,
    name: Option<string>,
    floats: map<string, real>,
    colors: map<string, Vec4>,
    textures: map<string, Option<Texture2D>>,
    textureScales: map<string, (real, real)>,
    asset: Option<string>)

  function NewMaterial(shader: string): Material {
    Material(shader, None, map[], map[], map[], map[], None)
  }

  /** `BoneWeight`: four bone indices and weights; `None` weights stand for the NaNs of a zero sum. */
  datatype BoneWeight = BoneWeight(boneIndex: seq<int>, weight: Option<seq<real>>)

  /** One `Mesh.AddBlendShapeFrame` call. */
  datatype BlendShapeFrame = BlendShapeFrame(name: string, weight: real, deltaVertices: seq<Vec3>,
                                             deltaNormals: seq<Vec3>, deltaTangents: seq<Vec3>)

  /** The parts of a `Mesh` the importer writes after creating it. */
  datatype MeshData = MeshData(vertexCount: nat, blendShapes: seq<BlendShapeFrame>,
                               boneWeights: Option<seq<BoneWeight>>, bindposes: seq<Matrix>,
                               asset: Option<string>)

  datatype ComponentKind = MeshFilter | MeshRenderer | SkinnedMeshRenderer

  /** The engine exceptions the modelled scripts can raise on a bad object reference or cast. */
  datatype UnityError = NullReference | MissingReference | InvalidCast

  /**
   * A GameObject with its Transform, its renderer state (shared mesh,
   * material, bones) and its components. `position` is the world-space
   * position the `Transform.position` setter writes.
   */
  datatype GameObject = GameObject(
    name: string,
    parent: Option<ObjectId>,
    local: Trs,
    position: Vec3,
    activeSelf: bool,
    components: set<ComponentKind>,
    sharedMesh: Option<MeshId>,
    material: Option<Material>,
    bones: seq<ObjectId>,
    rootBone: Option<ObjectId>)

  /** `new GameObject(name)`: an active root object with an identity transform and no components. */
  function NewGameObject(name: string): GameObject {
    GameObject(name, None, IdentityTrs, Vec3(0.0, 0.0, 0.0), true, {}, None, None, [], None)
  }

  /** A `Renderer` (`MeshRenderer` or `SkinnedMeshRenderer`) is attached. */
  predicate HasRenderer(g: GameObject) {
    MeshRenderer in g.components || SkinnedMeshRenderer in g.components
  }

  class World {
    var objects: map<ObjectId, GameObject>
    var nextId: ObjectId
    var meshes: map<MeshId, MeshData>
    var nextMesh: MeshId
    /** Every `Object.Destroy` / `Object.DestroyImmediate` call, in call order. */
    var destroyLog: seq<ObjectId>
    /** Objects passed to the deferred `Object.Destroy`, removed at the end of the frame. */
    var pendingDestroy: seq<ObjectId>
    /** Messages of `Debug.LogError` / `Debug.LogErrorFormat`. */
    var errorLog: seq<string>

    predicate Valid()
      reads this
    {
      0 <= nextId && 0 <= nextMesh &&
      (forall id :: id in objects ==> 0 <= id < nextId) &&
      (forall m :: m in meshes ==> 0 <= m < nextMesh)
    }

    /** Only the GameObjects changed: meshes, ids and logs are as before. */
    twostate predicate OnlyObjectsChanged()
      reads this
    {
      nextId == old(nextId) && meshes == old(meshes) && nextMesh == old(nextMesh) &&
      destroyLog == old(destroyLog) && pendingDestroy == old(pendingDestroy) && errorLog == old(errorLog)
    }

    /** Only GameObjects were created or changed: meshes and logs are as before. */
    twostate predicate OnlyObjectsCreated()
      reads this
    {
      old(nextId) <= nextId && meshes == old(meshes) && nextMesh == old(nextMesh) &&
      destroyLog == old(destroyLog) && pendingDestroy == old(pendingDestroy) && errorLog == old(errorLog)
    }

    /** Nothing was created or destroyed: only existing objects and meshes, and the error log, may have changed. */
    twostate predicate SameAllocation()
      reads this
    {
      nextId == old(nextId) && nextMesh == old(nextMesh) &&
      destroyLog == old(destroyLog) && pendingDestroy == old(pendingDestroy)
    }

    /** Only meshes were added: existing meshes, objects, ids and logs are as before. */
    twostate predicate OnlyMeshesAdded()
      reads this
    {
      objects == old(objects) && nextId == old(nextId) && old(nextMesh) <= nextMesh &&
      (forall m :: m in old(meshes) ==> m in meshes && meshes[m] == old(meshes)[m]) &&
      destroyLog == old(destroyLog) && pendingDestroy == old(pendingDestroy) && errorLog == old(errorLog)
    }

    constructor ()
      ensures Valid()
      ensures objects == map[] && meshes == map[] && destroyLog == [] && pendingDestroy == [] && errorLog == []
    {
      objects := map[];
      nextId := 0;
      meshes := map[];
      nextMesh := 0;
      destroyLog := [];
      pendingDestroy := [];
      errorLog := [];
    }

    /** `new GameObject(name)`: a fresh id, never used before. */
    method CreateGameObject(name: string) returns (id: ObjectId)
      requires Valid()
      modifies this
      ensures Valid()
      ensures id == old(nextId) && id !in old(objects) && nextId == id + 1
      ensures objects == old(objects)[id := NewGameObject(name)]
      ensures meshes == old(meshes) && nextMesh == old(nextMesh)
      ensures destroyLog == old(destroyLog) && pendingDestroy == old(pendingDestroy) && errorLog == old(errorLog)
    {
      id := nextId;
      objects := objects[id := NewGameObject(name)];
      nextId := nextId + 1;
    }

    /** Writes the state of one existing object (a field assignment on it or its Transform). */
    method SetObject(id: ObjectId, g: GameObject)
      requires Valid() && id in objects
      modifies this
      ensures Valid()
      ensures objects == old(objects)[id := g]
      ensures nextId == old(nextId) && meshes == old(meshes) && nextMesh == old(nextMesh)
      ensures destroyLog == old(destroyLog) && pendingDestroy == old(pendingDestroy) && errorLog == old(errorLog)
    {
      objects := objects[id := g];
    }

    /** `new Mesh()` with the given data: a fresh mesh id. */
    method CreateMesh(data: MeshData) returns (m: MeshId)
      requires Valid()
      modifies this
      ensures Valid()
      ensures m == old(nextMesh) && m !in old(meshes) && nextMesh == m + 1
      ensures meshes == old(meshes)[m := data]
      ensures objects == old(objects) && nextId == old(nextId)
      ensures destroyLog == old(destroyLog) && pendingDestroy == old(pendingDestroy) && errorLog == old(errorLog)
    {
      m := nextMesh;
      meshes := meshes[m := data];
      nextMesh := nextMesh + 1;
    }

    /** Writes the data of one existing mesh. */
    method SetMesh(m: MeshId, data: MeshData)
      requires Valid() && m in meshes
      modifies this
      ensures Valid()
      ensures meshes == old(meshes)[m := data]
      ensures objects == old(objects) && nextId == old(nextId) && nextMesh == old(nextMesh)
      ensures destroyLog == old(destroyLog) && pendingDestroy == old(pendingDestroy) && errorLog == old(errorLog)
    {
      meshes := meshes[m := data];
    }

    /** `Object.Destroy`: deferred to the end of the frame, so the object stays for now. */
    method Destroy(id: ObjectId)
      requires Valid()
      modifies this
      ensures Valid()
      ensures destroyLog == old(destroyLog) + [id] && pendingDestroy == old(pendingDestroy) + [id]
      ensures objects == old(objects) && nextId == old(nextId) && meshes == old(meshes) && nextMesh == old(nextMesh)
      ensures errorLog == old(errorLog)
    {
      destroyLog := destroyLog + [id];
      pendingDestroy := pendingDestroy + [id];
    }

    /** `Object.DestroyImmediate`: the object is gone at once. */
    method DestroyImmediate(id: ObjectId)
      requires Valid()
      modifies this
      ensures Valid()
      ensures destroyLog == old(destroyLog) + [id] && pendingDestroy == old(pendingDestroy)
      ensures objects == old(objects) - {id}
      ensures nextId == old(nextId) && meshes == old(meshes) && nextMesh == old(nextMesh)
      ensures errorLog == old(errorLog)
    {
      destroyLog := destroyLog + [id];
      objects := objects - {id};
    }

    /** `Debug.LogError`. */
    method LogError(message: string)
      requires Valid()
      modifies this
      ensures Valid()
      ensures errorLog == old(errorLog) + [message]
      ensures objects == old(objects) && nextId == old(nextId) && meshes == old(meshes) && nextMesh == old(nextMesh)
      ensures destroyLog == old(destroyLog) && pendingDestroy == old(pendingDestroy)
    {
      errorLog := errorLog + [message];
    }
  }
}
