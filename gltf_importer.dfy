/**
 * `GltfImporter`: the import phases that read a glTF file and build the
 * scene from it. Each phase is a method on the importer's state (the
 * input, the parsed document, the progress reports) and on its import
 * cache, proved against the pure descriptions in `ImporterSpec`. A phase
 * that throws in the source ends with `Fail(e)`, keeping whatever it
 * changed before the throw.
 */
module Importer {
  import opened Wrappers
  import opened Strings
  import opened Engine
  import opened GltfSchema
  import opened ImportEnv
  import opened GltfImporterRules
  import opened ImportCaches
  import opened ImporterSpec
  import opened SceneSpec
  import opened DeformSpec
  import GltfUtils

  class GltfImporter {
    /** The platform services the importer calls. */
    const env: Env
    /** `_imported`: every asset and object created so far. */
    const cache: GltfImportCache
    /** Whether texture flips are applied through the material's texture scale (`true` at runtime). */
    const flipByScale: bool

    /** `_uri`: the input file's URI, when it was given one. */
    var uri: Option<Uri>
    /** `_data`: the bytes of the input .gltf/.glb/.zip file. */
    var data: Option<Bytes>
    /** `_root`: the parsed glTF document. */
    var root: Option<Root>
    /** Every call of the progress callback, in order. */
    var reports: seq<Progress>

    /** The cache's invariant; the phases that only append assets leave it alone. */
    ghost predicate Valid()
      reads cache`nodes, cache`nodeOrder, cache`nodeToMeshPrimitives, cache`primitiveOrder, cache`scene, cache.world
    {
      cache.Valid()
    }

    /** `GltfImporter(uri, data, imported, progressCallback)`: nothing read or parsed yet. */
    constructor (env: Env, uri: Option<Uri>, data: Option<Bytes>, cache: GltfImportCache, flipByScale: bool)
      ensures this.env == env && this.cache == cache && this.flipByScale == flipByScale
      ensures this.uri == uri && this.data == data && root.None? && reports == []
    {
      this.env := env;
      this.cache := cache;
      this.flipByScale := flipByScale;
      this.uri := uri;
      this.data := data;
      root := None;
      reports := [];
    }

    /** `Clear`: destroys every object the import created, in the cache's order. */
    method Clear()
      requires Valid()
      modifies cache.world
      ensures Valid()
      ensures cache.DestroyedInOrder(cache.Created())
    {
      cache.Clear();
    }

    /** `Scene` of the cache: the root object of the imported scene, once created. */
    function SceneObject(): (r: Option<ObjectId>)
      reads this, cache
      ensures r == cache.scene
    {
      cache.scene
    }

    // -------------------------------------------------------------------------
    // Reading and parsing

    /**
     * `ReadUri`: input passed in as bytes is kept; otherwise the URI is
     * read (a local file) or downloaded, its progress reported under
     * that step, and its bytes become the input.
     */
    method ReadUri() returns (outcome: Outcome<ImportError>)
      modifies this`data, this`reports
      ensures old(data).Some? ==> outcome.Pass? && data == old(data) && reports == old(reports)
      ensures old(data).None? ==>
        var step := if env.isLocalUri(uri) then Read else Download;
        var read := env.readInput(uri);
        reports == old(reports) + ReadReports(step, read.progress) &&
        (read.data.Ok? ==> outcome.Pass? && data == Some(read.data.value)) &&
        (read.data.Err? ==> outcome == Fail(read.data.error) && data.None?)
    {
      if data.Some? {
        return Pass;
      }
      var step := if env.isLocalUri(uri) then Read else Download;
      var read := env.readInput(uri);
      reports := reports + ReadReports(step, read.progress);
      if read.data.Err? {
        return Fail(read.data.error);
      }
      data := Some(read.data.value);
      outcome := Pass;
    }

    /**
     * `ParseFile`: reports the start, takes the .gltf/.glb bytes out of
     * the input and parses them; on success the document is kept and the
     * end reported.
     */
    method ParseFile() returns (outcome: Outcome<ImportError>)
      requires data.Some?
      modifies this`root, this`reports
      ensures var r := ParseResult(env, data.value);
        (r.Ok? ==> outcome.Pass? && root == Some(r.value) &&
                   reports == old(reports) + [Progress(Parse, 0, 1), Progress(Parse, 1, 1)]) &&
        (r.Err? ==> outcome == Fail(r.error) && root == old(root) && reports == old(reports) + [Progress(Parse, 0, 1)])
    {
      reports := reports + [Progress(Parse, 0, 1)];
      var gltf := GetGltfBytes(env, data.value);
      if gltf.Err? {
        return Fail(gltf.error);
      }
      var parsed := env.parseJson(gltf.value);
      if parsed.None? {
        return Fail(JsonParseException);
      }
      root := Some(parsed.value);
      reports := reports + [Progress(Parse, 1, 1)];
      outcome := Pass;
    }

    // -------------------------------------------------------------------------
    // Buffers, textures and materials

    /**
     * `LoadBuffers`: each buffer in order is loaded and appended to the
     * cache, with a report per buffer; the first that throws ends the
     * phase.
     */
    method LoadBuffers() returns (outcome: Outcome<ImportError>)
      requires data.Some? && root.Some?
      modifies cache`buffers, this`reports
      ensures var run := RunUntilError(BufferLoader(env, data.value, uri), root.value.buffers);
        cache.buffers == old(cache.buffers) + run.0 &&
        reports == old(reports) + PhaseReports(BufferStep, |run.0|, |root.value.buffers|) &&
        (outcome.Pass? <==> run.1.None?) && (run.1.Some? ==> outcome == Fail(run.1.value))
    {
      outcome := AddBuffers(root.value.buffers, BufferLoader(env, data.value, uri));
    }

    /** The loop of `LoadBuffers`, for any way `load` of loading the `i`-th buffer. */
    method AddBuffers(buffers: seq<Buffer>, load: (nat, Buffer) -> Result<Option<Bytes>, ImportError>)
      returns (outcome: Outcome<ImportError>)
      modifies cache`buffers, this`reports
      ensures var run := RunUntilError(load, buffers);
        cache.buffers == old(cache.buffers) + run.0 &&
        reports == old(reports) + PhaseReports(BufferStep, |run.0|, |buffers|) &&
        (outcome.Pass? <==> run.1.None?) && (run.1.Some? ==> outcome == Fail(run.1.value))
    {
      var n := |buffers|;
      if n == 0 {
        return Pass;
      }
      reports := reports + [Progress(BufferStep, 0, n)];
      ghost var run := RunUntilError(load, buffers);
      for i := 0 to n
        invariant i <= |run.0| && cache.buffers == old(cache.buffers) + run.0[..i]
        invariant reports == old(reports) + PhaseReports(BufferStep, i, n)
      {
        var b := load(i, buffers[i]);
        RunUntilErrorAt(load, buffers, i);
        if b.Err? {
          return Fail(b.error);
        }
        cache.AppendBuffer(b.value);
        assert run.0[..i + 1] == run.0[..i] + [b.value];
        CountedStep(BufferStep, i, n);
        reports := reports + [Progress(BufferStep, i + 1, n)];
      }
      assert run.0[..n] == run.0;
      outcome := Pass;
    }

    /**
     * `LoadTextures`: a null placeholder per texture, then the texture
     * tasks run interleaved; each completed texture goes into its own
     * slot and reports how many have completed. `order` is the order in
     * which the tasks complete.
     */
    method LoadTextures(order: seq<nat>) returns (outcome: Outcome<ImportError>)
      requires data.Some? && root.Some?
      requires CompletionOrder(order, |root.value.textures|)
      modifies cache`textures, this`reports
      ensures var n := |root.value.textures|;
        var run := RunUntilError(TextureLoader(env, data.value, uri, cache.buffers, root.value), order);
        cache.textures == Placed(old(cache.textures) + Nones(n), order, run.0) &&
        reports == old(reports) + PhaseReports(TextureStep, |run.0|, n) &&
        (outcome.Pass? <==> run.1.None?) && (run.1.Some? ==> outcome == Fail(run.1.value))
    {
      outcome := FillTextureSlots(order, |root.value.textures|, TextureLoader(env, data.value, uri, cache.buffers, root.value));
    }

    /** `_imported.Textures.Add(null)` once per texture, before any texture is loaded. */
    method AddPlaceholders(n: nat)
      modifies cache`textures
      ensures cache.textures == old(cache.textures) + Nones(n)
    {
      for i := 0 to n
        invariant cache.textures == old(cache.textures) + Nones(i)
      {
        cache.AppendTexture(None);
        assert Nones<Texture2D>(i + 1) == Nones(i) + [None];
      }
    }

    /** The placeholders and the completion handler of `LoadTextures`, for any way `load` of loading texture `idx`. */
    method FillTextureSlots(order: seq<nat>, n: nat, load: (nat, nat) -> Result<Texture2D, ImportError>)
      returns (outcome: Outcome<ImportError>)
      requires CompletionOrder(order, n)
      modifies cache`textures, this`reports
      ensures var run := RunUntilError(load, order);
        cache.textures == Placed(old(cache.textures) + Nones(n), order, run.0) &&
        reports == old(reports) + PhaseReports(TextureStep, |run.0|, n) &&
        (outcome.Pass? <==> run.1.None?) && (run.1.Some? ==> outcome == Fail(run.1.value))
    {
      if n == 0 {
        assert order == [];
        assert old(cache.textures) + Nones(0) == cache.textures;
        return Pass;
      }
      reports := reports + [Progress(TextureStep, 0, n)];
      AddPlaceholders(n);
      ghost var base := cache.textures;
      ghost var run := RunUntilError(load, order);
      for k := 0 to n
        invariant k <= |run.0| && cache.textures == Placed(base, order, run.0[..k])
        invariant reports == old(reports) + PhaseReports(TextureStep, k, n)
      {
        var idx := order[k];
        var t := load(k, idx);
        RunUntilErrorAt(load, order, k);
        if t.Err? {
          assert run.0[..k] == run.0;
          return Fail(t.error);
        }
        var _ := cache.SetTexture(idx, Some(t.value));
        assert run.0[..k + 1][..k] == run.0[..k];
        CountedStep(TextureStep, k, n);
        reports := reports + [Progress(TextureStep, k + 1, n)];
      }
      assert run.0[..n] == run.0;
      outcome := Pass;
    }

    /**
     * `LoadMaterials`: each material in order is built from its
     * definition and the loaded textures and appended to the cache, with
     * a report per material.
     */
    method LoadMaterials() returns (outcome: Outcome<ImportError>)
      requires root.Some?
      modifies cache`materials, this`reports
      ensures var run := RunUntilError(MaterialLoader(cache.textures, flipByScale), root.value.materials);
        cache.materials == old(cache.materials) + run.0 &&
        reports == old(reports) + PhaseReports(MaterialStep, |run.0|, |root.value.materials|) &&
        (outcome.Pass? <==> run.1.None?) && (run.1.Some? ==> outcome == Fail(run.1.value))
    {
      outcome := AddMaterials(root.value.materials, MaterialLoader(cache.textures, flipByScale));
    }

    /** The loop of `LoadMaterials`, for any way `load` of building the `i`-th material. */
    method AddMaterials(materials: seq<GltfSchema.Material>, load: (nat, GltfSchema.Material) -> Result<Engine.Material, ImportError>)
      returns (outcome: Outcome<ImportError>)
      modifies cache`materials, this`reports
      ensures var run := RunUntilError(load, materials);
        cache.materials == old(cache.materials) + run.0 &&
        reports == old(reports) + PhaseReports(MaterialStep, |run.0|, |materials|) &&
        (outcome.Pass? <==> run.1.None?) && (run.1.Some? ==> outcome == Fail(run.1.value))
    {
      var n := |materials|;
      if n == 0 {
        return Pass;
      }
      reports := reports + [Progress(MaterialStep, 0, n)];
      ghost var run := RunUntilError(load, materials);
      for i := 0 to n
        invariant i <= |run.0| && cache.materials == old(cache.materials) + run.0[..i]
        invariant reports == old(reports) + PhaseReports(MaterialStep, i, n)
      {
        var m := load(i, materials[i]);
        RunUntilErrorAt(load, materials, i);
        if m.Err? {
          return Fail(m.error);
        }
        cache.AppendMaterial(m.value);
        assert run.0[..i + 1] == run.0[..i] + [m.value];
        CountedStep(MaterialStep, i, n);
        reports := reports + [Progress(MaterialStep, i + 1, n)];
      }
      assert run.0[..n] == run.0;
      outcome := Pass;
    }

    // -------------------------------------------------------------------------
    // Meshes

    /**
     * `CreateMeshObject`: for each primitive in order, its attribute and
     * index buffers are looked up, its vertex count read from POSITION, a
     * mesh created, and its material looked up; the (mesh, material) pairs
     * become the mesh's entry in the cache, and the mesh index is recorded
     * when a primitive has morph targets. A primitive that throws ends the
     * mesh; a material lookup throws after the primitive's mesh exists.
     */
    method CreateMeshObject(meshDef: Mesh, meshId: nat, buffers: seq<Option<Bytes>>, materials: seq<Engine.Material>,
                            default: Engine.Material)
      returns (outcome: Outcome<ImportError>, ghost prims: seq<Primitive>)
      requires cache.world.Valid()
      modifies cache.world, cache`meshes, cache`meshesWithMorphTargets
      ensures cache.world.Valid() && cache.world.OnlyMeshesAdded()
      ensures var e := MeshError(meshDef, buffers, materials, default);
        (outcome.Pass? <==> e.None?) && (e.Some? ==> outcome == Fail(e.value))
      ensures outcome.Pass? ==>
        cache.meshes == old(cache.meshes) + [prims] &&
        MeshLoaded(prims, meshDef.primitives, cache.world.meshes, buffers, materials, default) &&
        cache.meshesWithMorphTargets == old(cache.meshesWithMorphTargets) + (if MeshHasMorphTargets(meshDef) then [meshId] else [])
      ensures outcome.Fail? ==> cache.meshes == old(cache.meshes) && cache.meshesWithMorphTargets == old(cache.meshesWithMorphTargets)
    {
      var created, hasMorphTargets;
      created, hasMorphTargets, outcome := CreateMeshPrimitives(meshDef.primitives, buffers, materials, default);
      if outcome.Fail? {
        return outcome, [];
      }
      cache.AppendMesh(created);
      prims := created;
      if hasMorphTargets {
        cache.AppendMorphMesh(meshId);
      }
    }

    /** The loop of `CreateMeshObject` over the primitives `ps`, and whether any has morph targets. */
    method CreateMeshPrimitives(ps: seq<MeshPrimitive>, buffers: seq<Option<Bytes>>, materials: seq<Engine.Material>,
                                default: Engine.Material)
      returns (prims: seq<Primitive>, hasMorphTargets: bool, outcome: Outcome<ImportError>)
      requires cache.world.Valid()
      modifies cache.world
      ensures cache.world.Valid() && cache.world.OnlyMeshesAdded()
      ensures var run := RunUntilError(PrimitiveLoader(buffers, materials, default), ps);
        (outcome.Pass? <==> run.1.None?) && (run.1.Some? ==> outcome == Fail(run.1.value))
      ensures outcome.Pass? ==> MeshLoaded(prims, ps, cache.world.meshes, buffers, materials, default)
      ensures outcome.Pass? ==> (hasMorphTargets <==> exists j :: 0 <= j < |ps| && HasMorphTargets(ps[j]))
    {
      var world := cache.world;
      ghost var run := RunUntilError(PrimitiveLoader(buffers, materials, default), ps);
      prims := [];
      hasMorphTargets := false;
      for i := 0 to |ps|
        invariant world.Valid() && world.OnlyMeshesAdded()
        invariant i <= |run.0|
        invariant MeshLoaded(prims, ps[..i], world.meshes, buffers, materials, default)
        invariant hasMorphTargets <==> exists j :: 0 <= j < i && HasMorphTargets(ps[j])
      {
        var p := ps[i];
        hasMorphTargets := hasMorphTargets || HasMorphTargets(p);
        RunUntilErrorAt(PrimitiveLoader(buffers, materials, default), ps, i);
        if !PrimitiveBuffersIn(p, buffers) || (p.indices.Some? && p.indices.value.bufferView.buffer >= |buffers|) {
          return prims, hasMorphTargets, Fail(ArgumentOutOfRange);
        }
        if POSITION !in p.attributes {
          return prims, hasMorphTargets, Fail(KeyNotFound);
        }
        ghost var before := world.meshes;
        var m := world.CreateMesh(NewMeshData(p));
        if p.material.Some? && p.material.value >= 0 && p.material.value >= |materials| {
          return prims, hasMorphTargets, Fail(ArgumentOutOfRange);
        }
        MeshLoadedSnoc(prims, ps, i, before, m, buffers, materials, default);
        prims := prims + [Primitive(m, PrimitiveMaterial(p, materials, default))];
      }
      assert ps[..|ps|] == ps;
      outcome := Pass;
    }

    /**
     * `LoadMeshes`: `CreateMeshObject` for each mesh in order, with a
     * report per mesh. On success every mesh has its entry in the cache,
     * each primitive with its own mesh and material, and the meshes with
     * morph targets are recorded in order.
     */
    method LoadMeshes() returns (outcome: Outcome<ImportError>, ghost added: seq<seq<Primitive>>)
      requires cache.world.Valid() && root.Some?
      modifies cache.world, cache`meshes, cache`meshesWithMorphTargets, this`reports
      ensures cache.world.Valid() && cache.world.OnlyMeshesAdded()
      ensures MeshPhaseDone(root.value.meshes, cache.buffers, cache.materials, cache.defaultMaterial, outcome,
                            old(cache.meshes), cache.meshes, added, cache.world.meshes,
                            old(cache.meshesWithMorphTargets), cache.meshesWithMorphTargets, old(reports), reports)
    {
      var meshes := root.value.meshes;
      var n := |meshes|;
      var world := cache.world;
      var buffers, materials, default := cache.buffers, cache.materials, cache.defaultMaterial;
      ghost var entries0, morph0, reports0 := cache.meshes, cache.meshesWithMorphTargets, reports;
      if n == 0 {
        MeshPhaseEmpty(meshes, buffers, materials, default, entries0, world.meshes, morph0, reports0);
        return Pass, [];
      }
      MeshPhaseStart(meshes, buffers, materials, default, entries0, world.meshes, morph0, reports0);
      reports := reports + [Progress(MeshStep, 0, n)];
      added := [];
      for i := 0 to n
        invariant world.Valid() && world.OnlyMeshesAdded()
        invariant MeshPhaseAt(meshes, i, buffers, materials, default, entries0, cache.meshes, added, world.meshes, morph0,
                              cache.meshesWithMorphTargets, reports0, reports)
      {
        var o;
        o, added := LoadMeshAt(meshes, i, buffers, materials, default, entries0, added, morph0, reports0);
        if o.Fail? {
          return o, added;
        }
      }
      MeshPhaseComplete(meshes, buffers, materials, default, entries0, cache.meshes, added, world.meshes, morph0,
                        cache.meshesWithMorphTargets, reports0, reports);
      outcome := Pass;
    }

    /**
     * One iteration of the mesh loop: mesh `i` is created and its progress
     * reported, or its exception ends the phase.
     */
    method LoadMeshAt(meshes: seq<Mesh>, i: nat, buffers: seq<Option<Bytes>>, materials: seq<Engine.Material>,
                      default: Engine.Material, ghost entries0: seq<seq<Primitive>>, ghost added: seq<seq<Primitive>>,
                      ghost morph0: seq<nat>, ghost reports0: seq<Progress>)
      returns (outcome: Outcome<ImportError>, ghost added': seq<seq<Primitive>>)
      requires cache.world.Valid() && i < |meshes|
      requires MeshPhaseAt(meshes, i, buffers, materials, default, entries0, cache.meshes, added, cache.world.meshes, morph0,
                           cache.meshesWithMorphTargets, reports0, reports)
      modifies cache.world, cache`meshes, cache`meshesWithMorphTargets, this`reports
      ensures cache.world.Valid() && cache.world.OnlyMeshesAdded()
      ensures outcome.Pass? ==>
        MeshPhaseAt(meshes, i + 1, buffers, materials, default, entries0, cache.meshes, added', cache.world.meshes, morph0,
                    cache.meshesWithMorphTargets, reports0, reports)
      ensures outcome.Fail? ==> added' == added
      ensures outcome.Fail? ==>
        MeshPhaseDone(meshes, buffers, materials, default, outcome, entries0, cache.meshes, added, cache.world.meshes, morph0,
                      cache.meshesWithMorphTargets, reports0, reports)
    {
      var world := cache.world;
      ghost var before, entries, morph := world.meshes, cache.meshes, cache.meshesWithMorphTargets;
      var o, prims := CreateMeshObject(meshes[i], i, buffers, materials, default);
      assert Extends(before, world.meshes);
      if o.Fail? {
        MeshPhaseFail(meshes, i, buffers, materials, default, entries0, entries, added, before, world.meshes,
                      morph0, morph, reports0, reports);
        return o, added;
      }
      MeshPhaseStep(meshes, i, buffers, materials, default, entries0, entries, added, before, world.meshes, prims,
                    morph0, morph, reports0, reports);
      added' := added + [prims];
      reports := reports + [Progress(MeshStep, i + 1, |meshes|)];
      outcome := Pass;
    }

    // -------------------------------------------------------------------------
    // The scene

    /** The state building the scene changes, read from the world, the cache and the reports. */
    function SceneStateNow(): SceneState
      reads this, cache, cache.world
    {
      SceneState(cache.world.objects, cache.world.nextId, cache.nodes, cache.nodeOrder, cache.meshToNodes,
                 cache.skinToNodes, cache.nodeToMeshPrimitives, cache.primitiveOrder, cache.scene, reports)
    }

    /** The start of `CreateNode`: the node's object, its local transform, and the mesh and skin back-references. */
    method EnterNode(node: Node, index: nat) returns (obj: ObjectId)
      requires cache.world.Valid()
      modifies cache.world, cache`meshToNodes, cache`skinToNodes
      ensures cache.world.Valid() && cache.world.OnlyObjectsCreated()
      ensures obj == old(cache.world.nextId) && SceneStateNow() == NodeEntered(node, index, old(SceneStateNow()))
    {
      var world := cache.world;
      ghost var s0 := SceneStateNow();
      obj := world.CreateGameObject(GltfUtils.CleanName(NodeName(node, index)));
      world.SetObject(obj, world.objects[obj].(local := node.trs));
      assert world.objects == s0.objects[obj := NodeObject(node, index)];
      cache.meshToNodes := Record(cache.meshToNodes, node.mesh, index);
      cache.skinToNodes := Record(cache.skinToNodes, node.skin, index);
    }

    /**
     * `CreateNode(node, index)`, called with node `index` of the document
     * as both callers do: the node's object, its back-references, its
     * entry in `Nodes`, a report, then its children depth-first.
     */
    method CreateNode(node: Node, index: nat) returns (outcome: Outcome<ImportError>, obj: ObjectId)
      requires cache.world.Valid() && root.Some? && index < |root.value.nodes| && node == root.value.nodes[index]
      modifies cache.world, cache`nodes, cache`nodeOrder, cache`meshToNodes, cache`skinToNodes, this`reports
      ensures cache.world.Valid() && cache.world.OnlyObjectsCreated()
      ensures (SceneStateNow(), outcome, obj) == CreateNodeSpec(root.value.nodes, index, old(SceneStateNow()))
      decreases |Unvisited(|root.value.nodes|, cache.nodes.Keys)|, 0
    {
      var nodes := root.value.nodes;
      ghost var s0 := SceneStateNow();
      obj := EnterNode(node, index);
      ghost var s1 := SceneStateNow();
      if index in cache.nodes {
        return Fail(DuplicateKey), obj;
      }
      cache.nodes := cache.nodes[index := obj];
      cache.nodeOrder := cache.nodeOrder + [index];
      reports := reports + [Progress(NodeStep, |cache.nodes|, |nodes|)];
      assert SceneStateNow() == NodeAdded(index, obj, |nodes|, s1);
      assert cache.nodes.Keys == s0.nodes.Keys + {index};
      UnvisitedDrops(|nodes|, s0.nodes.Keys, index);
      outcome := CreateChildren(node.children, obj);
    }

    /** `foreach (var child in node.Children)`: each child built and parented under `parent`, in order. */
    method CreateChildren(children: seq<nat>, parent: ObjectId) returns (outcome: Outcome<ImportError>)
      requires cache.world.Valid() && root.Some?
      modifies cache.world, cache`nodes, cache`nodeOrder, cache`meshToNodes, cache`skinToNodes, this`reports
      ensures cache.world.Valid() && cache.world.OnlyObjectsCreated()
      ensures (SceneStateNow(), outcome) == ChildrenSpec(root.value.nodes, children, parent, old(SceneStateNow()))
      decreases |Unvisited(|root.value.nodes|, cache.nodes.Keys)|, 2, |children|
    {
      var nodes := root.value.nodes;
      ghost var s0 := SceneStateNow();
      for i := 0 to |children|
        invariant cache.world.Valid() && cache.world.OnlyObjectsCreated()
        invariant s0.nodes.Keys <= cache.nodes.Keys
        invariant ChildrenSpec(nodes, children[i..], parent, SceneStateNow()) == ChildrenSpec(nodes, children, parent, s0)
      {
        ghost var before := SceneStateNow();
        UnvisitedShrinks(|nodes|, s0.nodes.Keys, cache.nodes.Keys);
        var o := CreateChild(children[i], parent);
        ChildrenUnfold(nodes, children[i..], parent, before);
        assert children[i..][1..] == children[i + 1..];
        if o.Fail? {
          return o;
        }
      }
      outcome := Pass;
    }

    /** `CreateNode(child.Value, child.Id)` and `SetParent(parent, false)` for one child reference. */
    method CreateChild(c: nat, parent: ObjectId) returns (outcome: Outcome<ImportError>)
      requires cache.world.Valid() && root.Some?
      modifies cache.world, cache`nodes, cache`nodeOrder, cache`meshToNodes, cache`skinToNodes, this`reports
      ensures cache.world.Valid() && cache.world.OnlyObjectsCreated()
      ensures (SceneStateNow(), outcome) == ChildStep(root.value.nodes, c, parent, old(SceneStateNow()))
      decreases |Unvisited(|root.value.nodes|, cache.nodes.Keys)|, 1
    {
      if c >= |root.value.nodes| {
        return Fail(ArgumentOutOfRange);
      }
      var o, child := CreateNode(root.value.nodes[c], c);
      if o.Fail? {
        return o;
      }
      cache.world.SetObject(child, cache.world.objects[child].(parent := Some(parent)));
      outcome := Pass;
    }

    /**
     * `SetupMeshNodes` for one node key: primitive 0 on the node's own
     * object, each further primitive on a new object with the node's
     * local transform and parent, and the list recorded in
     * `NodeToMeshPrimitives`.
     */
    method SetupMeshNode(k: nat) returns (outcome: Outcome<ImportError>)
      requires cache.world.Valid() && root.Some? && k in cache.nodes
      modifies cache.world, cache`nodeToMeshPrimitives, cache`primitiveOrder
      ensures cache.world.Valid() && cache.world.OnlyObjectsCreated()
      ensures (SceneStateNow(), outcome) == MeshNodeStep(root.value.nodes, cache.meshes, k, old(SceneStateNow()))
    {
      var nodes := root.value.nodes;
      if k >= |nodes| {
        return Fail(ArgumentOutOfRange);
      }
      var node := nodes[k];
      if node.mesh.None? {
        return Pass;
      }
      if node.mesh.value >= |cache.meshes| {
        return Fail(ArgumentOutOfRange);
      }
      var prims := cache.meshes[node.mesh.value];
      var obj := cache.nodes[k];
      if |prims| > 0 && obj !in cache.world.objects {
        return Fail(ImportError.MissingReference);
      }
      var list := PlacePrimitiveObjects(obj, SiblingName(node, k), prims);
      if k in cache.nodeToMeshPrimitives {
        return Fail(DuplicateKey);
      }
      cache.nodeToMeshPrimitives := cache.nodeToMeshPrimitives[k := list];
      cache.primitiveOrder := cache.primitiveOrder + [k];
      outcome := Pass;
    }

    /**
     * The loop over a mesh's primitives: primitive 0 on the node's own
     * object `obj`, each further one on a new object with the node
     * object's local transform and parent.
     */
    method PlacePrimitiveObjects(obj: ObjectId, name: string, prims: seq<Primitive>) returns (list: seq<ObjectId>)
      requires cache.world.Valid() && (|prims| > 0 ==> obj in cache.world.objects)
      modifies cache.world
      ensures cache.world.Valid() && cache.world.OnlyObjectsCreated()
      ensures (cache.world.objects, cache.world.nextId, list)
           == PlacePrimitives(old(cache.world.objects), old(cache.world.nextId), obj, name, prims)
    {
      var world := cache.world;
      ghost var objects0, next0 := world.objects, world.nextId;
      list := [];
      for i := 0 to |prims|
        invariant world.Valid() && world.OnlyObjectsCreated()
        invariant i == 0 ==> list == [] && world.objects == objects0 && world.nextId == next0
        invariant i > 0 ==> (world.objects, world.nextId, list) == FanOut(objects0, next0, obj, name, prims, i)
      {
        if i == 0 {
          world.SetObject(obj, WithPrimitive(world.objects[obj], prims[0]));
          list := [obj];
        } else {
          var g := world.objects[obj];
          ghost var before := world.objects;
          var id := world.CreateGameObject(GltfUtils.CleanName(name));
          world.SetObject(id, WithPrimitive(world.objects[id].(local := g.local, parent := g.parent), prims[i]));
          assert world.objects == before[id := WithPrimitive(SiblingObject(g, name), prims[i])];
          list := list + [id];
        }
      }
    }

    /** `SetupMeshNodes`: each node of `Nodes`, in insertion order. */
    method SetupMeshNodes() returns (outcome: Outcome<ImportError>)
      requires cache.world.Valid() && root.Some? && OrderInNodes(SceneStateNow())
      modifies cache.world, cache`nodeToMeshPrimitives, cache`primitiveOrder
      ensures cache.world.Valid() && cache.world.OnlyObjectsCreated()
      ensures (SceneStateNow(), outcome) == MeshNodesSpec(root.value.nodes, cache.meshes, cache.nodeOrder, old(SceneStateNow()))
    {
      var keys := cache.nodeOrder;
      ghost var s0 := SceneStateNow();
      for i := 0 to |keys|
        invariant cache.world.Valid() && cache.world.OnlyObjectsCreated()
        invariant MeshNodesSpec(root.value.nodes, cache.meshes, keys[i..], SceneStateNow()) ==
                  MeshNodesSpec(root.value.nodes, cache.meshes, keys, s0)
      {
        var o := SetupMeshNode(keys[i]);
        assert keys[i..][1..] == keys[i + 1..];
        if o.Fail? {
          return o;
        }
      }
      outcome := Pass;
    }

    /** The cache invariant, read off the current scene state. */
    lemma ValidFromScene()
      requires cache.world.Valid() && SceneInvariant(SceneStateNow())
      ensures Valid()
    {
    }

    /** `new GameObject(sceneName)` recorded as `Scene`. */
    method CreateSceneRoot() returns (sceneObj: ObjectId)
      requires cache.world.Valid()
      modifies cache.world, cache`scene
      ensures cache.world.Valid() && cache.world.OnlyObjectsCreated()
      ensures sceneObj == old(cache.world.nextId) && SceneStateNow() == SceneRooted(env, uri, old(SceneStateNow()))
    {
      sceneObj := cache.world.CreateGameObject(GltfUtils.CleanName(SceneName(env, uri)));
      cache.scene := Some(sceneObj);
    }

    /**
     * `LoadScene`: the scene root, each node of the default scene built and
     * parented under it, then `SetupMeshNodes`.
     */
    method LoadScene() returns (outcome: Outcome<ImportError>)
      requires cache.world.Valid() && root.Some? && OrderInNodes(SceneStateNow())
      modifies cache.world, cache`nodes, cache`nodeOrder, cache`meshToNodes, cache`skinToNodes
      modifies cache`nodeToMeshPrimitives, cache`primitiveOrder, cache`scene, this`reports
      ensures cache.world.Valid() && cache.world.OnlyObjectsCreated()
      ensures (SceneStateNow(), outcome) == LoadSceneSpec(env, uri, root.value, cache.meshes, old(SceneStateNow()))
    {
      var r := root.value;
      ghost var s0 := SceneStateNow();
      if r.defaultScene.None? {
        return Fail(Exception(NoDefaultScene));
      }
      var sceneObj := CreateSceneRoot();
      outcome := CreateChildren(r.defaultScene.value.nodes, sceneObj);
      if outcome.Fail? {
        return;
      }
      outcome := SetupMeshNodes();
    }
  
    // -------------------------------------------------------------------------
    // Morph targets and skins

    /** What the morph-target and skin steps read: the document, the buffers and the cache's dictionaries. */
    function DeformInputsNow(): DeformInputs
      reads this`root, cache`buffers, cache`meshes, cache`nodes, cache`meshToNodes, cache`skinToNodes
      reads cache`nodeToMeshPrimitives
      requires root.Some?
    {
      DeformInputs(env, root.value, cache.buffers, cache.meshes, cache.nodes, cache.meshToNodes, cache.skinToNodes,
                   cache.nodeToMeshPrimitives)
    }

    /** What the morph-target and skin steps change, read from the world and the reports. */
    function DeformStateNow(): DeformState
      reads this`reports, cache.world
    {
      DeformState(cache.world.meshes, cache.world.objects, cache.world.errorLog, reports)
    }

    /**
     * `LoadMorphTargets(mesh, meshIndex, i)`: one blend-shape frame per
     * morph target of primitive `i` of mesh `meshIndex`, appended to `m`.
     */
    method AddMorphFrames(m: MeshId, meshIndex: nat, i: nat) returns (outcome: Outcome<ImportError>)
      requires cache.world.Valid() && root.Some?
      modifies cache.world
      ensures cache.world.Valid() && cache.world.SameAllocation()
      ensures cache.world.objects == old(cache.world.objects) && cache.world.errorLog == old(cache.world.errorLog)
      ensures (cache.world.meshes, outcome) == PrimitiveMorph(DeformInputsNow(), meshIndex, i, m, old(cache.world.meshes))
    {
      var world := cache.world;
      var rootMeshes := root.value.meshes;
      if meshIndex >= |rootMeshes| || i >= |rootMeshes[meshIndex].primitives| {
        return Fail(ArgumentOutOfRange);
      }
      var p := rootMeshes[meshIndex].primitives[i];
      if !HasMorphTargets(p) {
        return Pass;
      }
      var targets := p.targets.value;
      var load := TargetLoader(env, cache.buffers, meshIndex);
      if m !in cache.world.meshes {
        // The first frame is read before the append to the missing mesh throws.
        var first := load(0, targets[0]);
        RunUntilErrorAt(load, targets, 0);
        return Fail(if first.Err? then first.error else ImportError.MissingReference);
      }
      outcome := AppendFrames(m, targets, load);
    }

    /** The loop of `LoadMorphTargets(mesh, meshIndex, i)` over the targets, for any way `load` of reading the `t`-th frame. */
    method AppendFrames(m: MeshId, targets: seq<MorphTarget>, load: (nat, MorphTarget) -> Result<BlendShapeFrame, ImportError>)
      returns (outcome: Outcome<ImportError>)
      requires cache.world.Valid() && m in cache.world.meshes
      modifies cache.world
      ensures cache.world.Valid() && cache.world.SameAllocation()
      ensures cache.world.objects == old(cache.world.objects) && cache.world.errorLog == old(cache.world.errorLog)
      ensures var run := RunUntilError(load, targets);
        cache.world.meshes == AddFrames(old(cache.world.meshes), m, run.0) && outcome == OutcomeOf(run.1)
    {
      var world := cache.world;
      ghost var run := RunUntilError(load, targets);
      ghost var meshes0 := world.meshes;
      AddNoFrames(meshes0, m);
      for t := 0 to |targets|
        invariant world.Valid() && world.SameAllocation()
        invariant world.objects == old(world.objects) && world.errorLog == old(world.errorLog)
        invariant t <= |run.0| && world.meshes == AddFrames(meshes0, m, run.0[..t])
      {
        var frame := load(t, targets[t]);
        RunUntilErrorAt(load, targets, t);
        if frame.Err? {
          assert run.0[..t] == run.0;
          return Fail(frame.error);
        }
        world.SetMesh(m, world.meshes[m].(blendShapes := world.meshes[m].blendShapes + [frame.value]));
        AddFramesSnoc(meshes0, m, run.0[..t], frame.value);
        assert run.0[..t + 1] == run.0[..t] + [frame.value];
      }
      assert run.0[..|targets|] == run.0;
      outcome := Pass;
    }

    /** `LoadMorphTargets(meshIndex)`: the frames of each primitive, then the renderer swaps on the nodes using the mesh. */
    method LoadMeshMorphTargets(meshIndex: nat) returns (outcome: Outcome<ImportError>)
      requires cache.world.Valid() && root.Some?
      modifies cache.world
      ensures cache.world.Valid() && cache.world.SameAllocation()
      ensures (DeformStateNow(), outcome) == MeshMorph(DeformInputsNow(), meshIndex, old(DeformStateNow()))
    {
      var world := cache.world;
      if meshIndex >= |cache.meshes| {
        return Fail(ArgumentOutOfRange);
      }
      var prims := cache.meshes[meshIndex];
      ghost var inp := DeformInputsNow();
      ghost var s0 := DeformStateNow();
      for i := 0 to |prims|
        invariant world.Valid() && world.SameAllocation()
        invariant world.objects == s0.objects && world.errorLog == s0.errorLog
        invariant MeshFrames(inp, meshIndex, prims, i, world.meshes) == MeshFrames(inp, meshIndex, prims, 0, s0.meshes)
      {
        var o := AddMorphFrames(prims[i].mesh, meshIndex, i);
        if o.Fail? {
          return o;
        }
      }
      if meshIndex !in cache.meshToNodes {
        return Pass;
      }
      var stop := SwapMeshRenderers(cache.meshToNodes[meshIndex], RootPrimitives(root.value, meshIndex), prims);
      outcome := StopOutcome(stop);
    }

    /** The loop of `LoadMorphTargets(meshIndex)` over the nodes using the mesh. */
    method SwapMeshRenderers(nodeIndices: seq<nat>, rootPrims: seq<MeshPrimitive>, prims: seq<Primitive>) returns (stop: Stop)
      requires cache.world.Valid()
      modifies cache.world
      ensures cache.world.Valid() && cache.world.SameAllocation()
      ensures cache.world.meshes == old(cache.world.meshes) && cache.world.errorLog == old(cache.world.errorLog)
      ensures var sw := MeshSwaps(nodeIndices, cache.nodeToMeshPrimitives, rootPrims, prims, old(cache.world.objects).Keys);
        cache.world.objects == ApplySwaps(old(cache.world.objects), sw.0) && stop == sw.1
    {
      var world := cache.world;
      var lists := cache.nodeToMeshPrimitives;
      ghost var objects0 := world.objects;
      ghost var live := objects0.Keys;
      for j := 0 to |nodeIndices|
        invariant world.Valid() && world.SameAllocation()
        invariant world.meshes == old(world.meshes) && world.errorLog == old(world.errorLog)
        invariant MeshSwaps(nodeIndices[..j], lists, rootPrims, prims, live).1 == Finished
        invariant world.objects == ApplySwaps(objects0, MeshSwaps(nodeIndices[..j], lists, rootPrims, prims, live).0)
      {
        ghost var prev := MeshSwaps(nodeIndices[..j], lists, rootPrims, prims, live).0;
        assert nodeIndices[..j + 1][..j] == nodeIndices[..j];
        var k := nodeIndices[j];
        if k !in lists {
          MeshSwapsStops(nodeIndices, lists, rootPrims, prims, live, j + 1);
          return Failed(KeyNotFound);
        }
        ghost var inner := NodeSwaps(lists[k], rootPrims, prims, live);
        stop := SwapNodeRenderers(lists[k], rootPrims, prims);
        ApplySwapsAppend(objects0, prev, inner.0);
        if !stop.Finished? {
          MeshSwapsStops(nodeIndices, lists, rootPrims, prims, live, j + 1);
          return;
        }
      }
      assert nodeIndices[..|nodeIndices|] == nodeIndices;
      stop := Finished;
    }

    /** The inner loop of `LoadMorphTargets(meshIndex)` over one node's primitive objects. */
    method SwapNodeRenderers(objs: seq<ObjectId>, rootPrims: seq<MeshPrimitive>, prims: seq<Primitive>) returns (stop: Stop)
      requires cache.world.Valid()
      modifies cache.world
      ensures cache.world.Valid() && cache.world.SameAllocation()
      ensures cache.world.meshes == old(cache.world.meshes) && cache.world.errorLog == old(cache.world.errorLog)
      ensures var sw := NodeSwaps(objs, rootPrims, prims, old(cache.world.objects).Keys);
        cache.world.objects == ApplySwaps(old(cache.world.objects), sw.0) && stop == sw.1
    {
      var world := cache.world;
      ghost var objects0 := world.objects;
      ghost var live := objects0.Keys;
      for i := 0 to |objs|
        invariant world.Valid() && world.SameAllocation()
        invariant world.meshes == old(world.meshes) && world.errorLog == old(world.errorLog)
        invariant NodeSwaps(objs[..i], rootPrims, prims, live).1 == Finished
        invariant world.objects == ApplySwaps(objects0, NodeSwaps(objs[..i], rootPrims, prims, live).0)
      {
        ghost var prev := NodeSwaps(objs[..i], rootPrims, prims, live).0;
        NodeSwapsStep(objs, rootPrims, prims, live, i);
        if i >= |rootPrims| || !HasMorphTargets(rootPrims[i]) || i >= |prims| || objs[i] !in world.objects {
          return if i >= |rootPrims| then Failed(ArgumentOutOfRange)
                 else if !HasMorphTargets(rootPrims[i]) then Returned
                 else if i >= |prims| then Failed(ArgumentOutOfRange)
                 else Failed(ImportError.MissingReference);
        }
        var o := objs[i];
        world.SetObject(o, SkinnedSwap(world.objects[o], prims[i]));
        assert (prev + [(o, prims[i])])[..|prev|] == prev;
      }
      assert objs[..|objs|] == objs;
      stop := Finished;
    }

    /** `LoadMorphTargets()`: each mesh with morph targets in order, with a report per mesh. */
    method LoadMorphTargets() returns (outcome: Outcome<ImportError>)
      requires cache.world.Valid() && root.Some?
      modifies cache.world, this`reports
      ensures cache.world.Valid() && cache.world.SameAllocation()
      ensures (DeformStateNow(), outcome) ==
              LoadMorphTargetsSpec(DeformInputsNow(), cache.meshesWithMorphTargets, old(DeformStateNow()))
    {
      var list := cache.meshesWithMorphTargets;
      if |list| == 0 {
        return Pass;
      }
      ghost var inp := DeformInputsNow();
      reports := reports + [Progress(MorphTargetStep, 0, |list|)];
      ghost var s0 := DeformStateNow();
      for i := 0 to |list|
        invariant cache.world.Valid() && cache.world.SameAllocation()
        invariant MorphSteps(inp, list, i, DeformStateNow()) == MorphSteps(inp, list, 0, s0)
      {
        var o := LoadMeshMorphTargets(list[i]);
        if o.Fail? {
          return o;
        }
        reports := reports + [Progress(MorphTargetStep, i + 1, |list|)];
      }
      outcome := Pass;
    }

    /**
     * `SetupSkinnedMeshPrimitive(nodeIndex, i, ...)` for a node whose mesh
     * is `meshIndex`: the renderer swap, bones and root bone on the
     * primitive's object, then bone weights and bind poses on its mesh.
     */
    method SetupSkinnedMeshPrimitive(nodeIndex: nat, meshIndex: nat, i: nat, bindposes: seq<Matrix>,
                                     bones: seq<ObjectId>, rootBone: Option<ObjectId>)
      returns (outcome: Outcome<ImportError>)
      requires cache.world.Valid() && root.Some? && meshIndex < |cache.meshes| && i < |cache.meshes[meshIndex]|
      modifies cache.world
      ensures cache.world.Valid() && cache.world.SameAllocation()
      ensures (DeformStateNow(), outcome) ==
              SkinPrimitive(DeformInputsNow(), nodeIndex, meshIndex, i, bindposes, bones, rootBone, old(DeformStateNow()))
    {
      var world := cache.world;
      var prim := cache.meshes[meshIndex][i];
      if nodeIndex !in cache.nodeToMeshPrimitives {
        return Fail(KeyNotFound);
      }
      var list := cache.nodeToMeshPrimitives[nodeIndex];
      if i >= |list| {
        return Fail(ArgumentOutOfRange);
      }
      var o := list[i];
      if o !in world.objects {
        return Fail(ImportError.MissingReference);
      }
      world.SetObject(o, SkinnedPrimitive(world.objects[o], prim, bones, rootBone));
      var rootMeshes := root.value.meshes;
      if meshIndex >= |rootMeshes| || i >= |rootMeshes[meshIndex].primitives| {
        return Fail(ArgumentOutOfRange);
      }
      var p := rootMeshes[meshIndex].primitives[i];
      if !SkinBuffersIn(p, cache.buffers) {
        return Fail(ArgumentOutOfRange);
      }
      if prim.mesh !in world.meshes {
        return Fail(ImportError.MissingReference);
      }
      var data := world.meshes[prim.mesh];
      var weights := GetBoneWeights(env, cache.buffers, p, data.vertexCount);
      if |weights.1| == 1 {
        world.LogError(weights.1[0]);
      }
      assert world.errorLog == old(world.errorLog) + weights.1;
      world.SetMesh(prim.mesh, data.(boneWeights := weights.0, bindposes := bindposes));
      outcome := Pass;
    }

    /** The loop of `LoadSkin` over the primitives of node `k`'s mesh `meshIndex`. */
    method SkinNodePrimitives(k: nat, meshIndex: nat, bindposes: seq<Matrix>, bones: seq<ObjectId>, rootBone: Option<ObjectId>)
      returns (outcome: Outcome<ImportError>)
      requires cache.world.Valid() && root.Some? && meshIndex < |cache.meshes|
      modifies cache.world
      ensures cache.world.Valid() && cache.world.SameAllocation()
      ensures (DeformStateNow(), outcome) ==
              SkinPrimitives(DeformInputsNow(), k, meshIndex, 0, bindposes, bones, rootBone, old(DeformStateNow()))
    {
      ghost var inp := DeformInputsNow();
      ghost var s0 := DeformStateNow();
      for i := 0 to |cache.meshes[meshIndex]|
        invariant cache.world.Valid() && cache.world.SameAllocation()
        invariant SkinPrimitives(inp, k, meshIndex, i, bindposes, bones, rootBone, DeformStateNow()) ==
                  SkinPrimitives(inp, k, meshIndex, 0, bindposes, bones, rootBone, s0)
      {
        var o := SetupSkinnedMeshPrimitive(k, meshIndex, i, bindposes, bones, rootBone);
        if o.Fail? {
          return o;
        }
      }
      outcome := Pass;
    }

    /**
     * `LoadSkin(skinIndex)`: an invalid skin is logged and skipped; a
     * valid one is applied to every primitive of every node that uses it.
     */
    method LoadSkin(skinIndex: nat) returns (outcome: Outcome<ImportError>)
      requires cache.world.Valid() && root.Some?
      modifies cache.world
      ensures cache.world.Valid() && cache.world.SameAllocation()
      ensures (DeformStateNow(), outcome) == LoadSkinSpec(DeformInputsNow(), skinIndex, old(DeformStateNow()))
    {
      var inp := DeformInputsNow();
      var valid := IsValidSkin(root.value.skins, skinIndex);
      if valid.Err? {
        return Fail(valid.error);
      }
      if !valid.value {
        cache.world.LogError(SkipMessage(skinIndex));
        return Pass;
      }
      var skin := root.value.skins[skinIndex];
      var poses := BindPoses(inp, skin.inverseBindMatrices.value);
      if poses.Err? {
        return Fail(poses.error);
      }
      var bones := GetBones(skin.joints, cache.nodes);
      if bones.Err? {
        return Fail(bones.error);
      }
      var rootBone := RootBone(skin, cache.nodes);
      if rootBone.Err? {
        return Fail(rootBone.error);
      }
      var targets := SkinTargetsOrEmpty(cache.skinToNodes, skinIndex);
      ghost var s0 := DeformStateNow();
      for j := 0 to |targets|
        invariant cache.world.Valid() && cache.world.SameAllocation()
        invariant SkinNodes(inp, targets, j, poses.value, bones.value, rootBone.value, DeformStateNow()) ==
                  SkinNodes(inp, targets, 0, poses.value, bones.value, rootBone.value, s0)
      {
        var k := targets[j];
        if k >= |root.value.nodes| {
          return Fail(ArgumentOutOfRange);
        }
        var node := root.value.nodes[k];
        if node.mesh.None? {
          continue;
        }
        if node.mesh.value >= |cache.meshes| {
          return Fail(ArgumentOutOfRange);
        }
        var o := SkinNodePrimitives(k, node.mesh.value, poses.value, bones.value, rootBone.value);
        if o.Fail? {
          return o;
        }
      }
      outcome := Pass;
    }

    /** `LoadSkins`: each skin of the document in order, with a report per skin. */
    method LoadSkins() returns (outcome: Outcome<ImportError>)
      requires cache.world.Valid() && root.Some?
      modifies cache.world, this`reports
      ensures cache.world.Valid() && cache.world.SameAllocation()
      ensures (DeformStateNow(), outcome) == LoadSkinsSpec(DeformInputsNow(), old(DeformStateNow()))
    {
      var n := |root.value.skins|;
      if n == 0 {
        return Pass;
      }
      ghost var inp := DeformInputsNow();
      reports := reports + [Progress(SkinStep, 0, n)];
      ghost var s0 := DeformStateNow();
      for i := 0 to n
        invariant cache.world.Valid() && cache.world.SameAllocation()
        invariant SkinSteps(inp, i, DeformStateNow()) == SkinSteps(inp, 0, s0)
      {
        var o := LoadSkin(i);
        if o.Fail? {
          return o;
        }
        reports := reports + [Progress(SkinStep, i + 1, n)];
      }
      outcome := Pass;
    }
  }
}
