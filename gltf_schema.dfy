/**
 * The parsed glTF document (`GLTFRoot` and the schema classes it holds),
 * reduced to the members the importer reads. A collection that is null in
 * the document is represented as an empty sequence, since every phase that
 * reads one treats null and empty alike.
 */
module GltfSchema {
  import opened Wrappers
  import opened UnityMath
  import opened Engine

  /** The raw bytes of a file, buffer or image. */
  type Bytes = seq<bv8>

  datatype Buffer = Buffer(uri: Option<string>)

  datatype BufferView = BufferView(buffer: nat, byteOffset: nat, byteLength: nat)

  /** An accessor: its identity (what decoders read), element count and buffer view. */
  datatype Accessor = Accessor(id: nat, count: nat, bufferView: BufferView)

  datatype Image = Image(uri: Option<string>, bufferView: Option<BufferView>)

  datatype MinFilterMode = Nearest | Linear | NearestMipmapNearest | LinearMipmapNearest
                         | NearestMipmapLinear | LinearMipmapLinear | NoMinFilter

  datatype WrapMode = ClampToEdge | MirroredRepeat | Repeat | NoWrap

  datatype Sampler = Sampler(minFilter: MinFilterMode, wrapS: WrapMode)

  datatype Texture = Texture(source: nat, sampler: Option<Sampler>)

  datatype TextureInfo = TextureInfo(index: nat)

  /** `AlphaMode`; `OtherAlphaMode` is any value outside the three named ones. */
  datatype AlphaMode = OPAQUE | MASK | BLEND | OtherAlphaMode(code: int)

  datatype PbrMetallicRoughness = PbrMetallicRoughness(
    baseColorFactor: Vec4,
    baseColorTexture: Option<TextureInfo>,
    metallicFactor: real,
    roughnessFactor: real,
    metallicRoughnessTexture: Option<TextureInfo>)

  /** The `KHR_materials_pbrSpecularGlossiness` extension. */
  datatype SpecularGlossiness = SpecularGlossiness(
    diffuseFactor: Vec4,
    diffuseTexture: Option<TextureInfo>,
    specularFactor: Vec3,
    glossinessFactor: real,
    specularGlossinessTexture: Option<TextureInfo>)

  datatype Material = Material(
    name: Option<string>,
    alphaMode: AlphaMode,
    alphaCutoff: real,
    normalTexture: Option<TextureInfo>,
    occlusionTexture: Option<TextureInfo>,
    emissiveFactor: Vec4,
    emissiveTexture: Option<TextureInfo>,
    pbrMetallicRoughness: Option<PbrMetallicRoughness>,
    specularGlossiness: Option<SpecularGlossiness>)

  /** A morph target: attribute name to accessor of deltas. */
  type MorphTarget = map<string, Accessor>

  datatype MeshPrimitive = MeshPrimitive(
    attributes: map<string, Accessor>,
    indices: Option<Accessor>,
    material: Option<int>,
    targets: Option<seq<MorphTarget>>)

  datatype Mesh = Mesh(name: Option<string>, primitives: seq<MeshPrimitive>)

  /** A node; `trs` is the Unity-space transform `GetUnityTRSProperties` yields for it. */
  datatype Node = Node(name: Option<string>, mesh: Option<nat>, skin: Option<nat>, children: seq<nat>, trs: Trs)

  datatype Skin = Skin(joints: seq<nat>, inverseBindMatrices: Option<Accessor>, skeleton: Option<nat>)

  datatype Scene = Scene(nodes: seq<nat>)

  /** `defaultScene` is what `GetDefaultScene()` returns. */
  datatype Root = Root(
    buffers: seq<Buffer>,
    images: seq<Image>,
    textures: seq<Texture>,
    materials: seq<Material>,
    meshes: seq<Mesh>,
    nodes: seq<Node>,
    skins: seq<Skin>,
    defaultScene: Option<Scene>)

  const POSITION := "POSITION"
  const NORMAL := "NORMAL"
  const JOINT := "JOINTS_0"
  const WEIGHT := "WEIGHTS_0"

  function TextureIndex(t: Option<TextureInfo>): set<nat> {
    if t.Some? then {t.value.index} else {}
  }

  /** Every texture index the material refers to. */
  function MaterialTextureRefs(m: Material): set<nat> {
    TextureIndex(m.normalTexture) + TextureIndex(m.occlusionTexture) + TextureIndex(m.emissiveTexture) +
    (if m.pbrMetallicRoughness.Some?
     then TextureIndex(m.pbrMetallicRoughness.value.baseColorTexture) +
          TextureIndex(m.pbrMetallicRoughness.value.metallicRoughnessTexture)
     else {}) +
    (if m.specularGlossiness.Some?
     then TextureIndex(m.specularGlossiness.value.diffuseTexture) +
          TextureIndex(m.specularGlossiness.value.specularGlossinessTexture)
     else {})
  }

  predicate AccessorIn(a: Accessor, root: Root) {
    a.bufferView.buffer < |root.buffers|
  }

  predicate PrimitiveIn(p: MeshPrimitive, root: Root) {
    (forall k :: k in p.attributes ==> AccessorIn(p.attributes[k], root)) &&
    (p.indices.Some? ==> AccessorIn(p.indices.value, root)) &&
    (p.material.Some? && p.material.value >= 0 ==> p.material.value < |root.materials|)
  }

  /**
   * Every index in the document names an element that exists: the
   * parser's output that the importer indexes into without checks.
   */
  predicate IndicesResolve(root: Root) {
    (forall i :: 0 <= i < |root.images| && root.images[i].bufferView.Some? ==>
       root.images[i].bufferView.value.buffer < |root.buffers|) &&
    (forall i :: 0 <= i < |root.textures| ==> root.textures[i].source < |root.images|) &&
    (forall i, t :: 0 <= i < |root.materials| && t in MaterialTextureRefs(root.materials[i]) ==> t < |root.textures|) &&
    (forall m, j :: 0 <= m < |root.meshes| && 0 <= j < |root.meshes[m].primitives| ==>
       PrimitiveIn(root.meshes[m].primitives[j], root)) &&
    (forall n :: 0 <= n < |root.nodes| ==>
       (root.nodes[n].mesh.Some? ==> root.nodes[n].mesh.value < |root.meshes|) &&
       (root.nodes[n].skin.Some? ==> root.nodes[n].skin.value < |root.skins|)) &&
    (forall n, c :: 0 <= n < |root.nodes| && 0 <= c < |root.nodes[n].children| ==>
       root.nodes[n].children[c] < |root.nodes|) &&
    (forall s :: 0 <= s < |root.skins| ==>
       (root.skins[s].skeleton.Some? ==> root.skins[s].skeleton.value < |root.nodes|) &&
       (root.skins[s].inverseBindMatrices.Some? ==> AccessorIn(root.skins[s].inverseBindMatrices.value, root))) &&
    (forall s, j :: 0 <= s < |root.skins| && 0 <= j < |root.skins[s].joints| ==>
       root.skins[s].joints[j] < |root.nodes|) &&
    (root.defaultScene.Some? ==> forall k :: 0 <= k < |root.defaultScene.value.nodes| ==>
       root.defaultScene.value.nodes[k] < |root.nodes|)
  }
}
