/**
 * What the phases of `GltfImporter` compute, stated without state: a loop
 * over a list that stops at the first exception, the progress reports a
 * phase issues, texture slots filled in completion order, the checks a
 * mesh primitive passes, the objects the morph-target step hands a
 * `SkinnedMeshRenderer`, and the lookups of the skin step.
 */
module ImporterSpec {
  import opened Wrappers
  import opened Strings
  import opened Engine
  import opened GltfSchema
  import opened ImportEnv
  import opened GltfImporterRules
  import opened ImportCaches

  // ---------------------------------------------------------------------------
  // Loops that stop at the first exception

  /**
   * `f` applied to each element in order until it first fails: the results
   * before the failure, and the failure. Every element before the stop
   * succeeds, the stop is at the first failing element, and there is no
   * stop exactly when every element succeeds.
   */
  function RunUntilError<A, B>(f: (nat, A) -> Result<B, ImportError>, xs: seq<A>): (r: (seq<B>, Option<ImportError>))
    ensures |r.0| <= |xs|
    ensures forall i :: 0 <= i < |r.0| ==> f(i, xs[i]) == Ok(r.0[i])
    ensures r.1.None? <==> |r.0| == |xs|
    ensures r.1.Some? ==> f(|r.0|, xs[|r.0|]) == Err(r.1.value)
    decreases |xs|
  {
    if |xs| == 0 then ([], None)
    else
      var prev := RunUntilError(f, xs[..|xs| - 1]);
      if prev.1.Some? then prev
      else
        var y := f(|xs| - 1, xs[|xs| - 1]);
        if y.Err? then (prev.0, Some(y.error)) else (prev.0 + [y.value], None)
  }

  /** One more element: the run over `xs[..n + 1]` extends the unstopped run over `xs[..n]`. */
  lemma RunUntilErrorStep<A, B>(f: (nat, A) -> Result<B, ImportError>, xs: seq<A>, n: nat)
    requires n < |xs| && RunUntilError(f, xs[..n]).1.None?
    ensures var prev := RunUntilError(f, xs[..n]).0;
      RunUntilError(f, xs[..n + 1]) ==
        if f(n, xs[n]).Ok? then (prev + [f(n, xs[n]).value], None) else (prev, Some(f(n, xs[n]).error))
  {
    assert xs[..n + 1][..n] == xs[..n];
  }

  /**
   * Element `i`, reached with every earlier element succeeding, either
   * succeeds with the run's `i`-th result or is where the run stops.
   */
  lemma RunUntilErrorAt<A, B>(f: (nat, A) -> Result<B, ImportError>, xs: seq<A>, i: nat)
    requires i < |xs| && i <= |RunUntilError(f, xs).0|
    ensures var run := RunUntilError(f, xs);
      (f(i, xs[i]).Err? ==> |run.0| == i && run.1 == Some(f(i, xs[i]).error)) &&
      (f(i, xs[i]).Ok? ==> i < |run.0| && run.0[i] == f(i, xs[i]).value)
  {
  }

  /** Once a prefix has stopped, the whole run stops there too. */
  lemma {:induction false} RunUntilErrorStops<A, B>(f: (nat, A) -> Result<B, ImportError>, xs: seq<A>, n: nat)
    requires n <= |xs| && RunUntilError(f, xs[..n]).1.Some?
    ensures RunUntilError(f, xs) == RunUntilError(f, xs[..n])
    decreases |xs|
  {
    if n < |xs| {
      var front := xs[..|xs| - 1];
      assert front[..n] == xs[..n];
      RunUntilErrorStops(f, front, n);
    } else {
      assert xs[..n] == xs;
    }
  }

  // ---------------------------------------------------------------------------
  // Progress reports

  /** `Progress(step, 1, total)` up to `Progress(step, done, total)`. */
  function Counted(step: ImportStep, done: nat, total: int): seq<Progress> {
    seq(done, i => Progress(step, i + 1, total))
  }

  /**
   * The reports of a phase over `total` entities of which `done` were
   * loaded: nothing when there are none, else `(step, 0, total)` and one
   * report per entity loaded.
   */
  function PhaseReports(step: ImportStep, done: nat, total: nat): seq<Progress> {
    if total == 0 then [] else [Progress(step, 0, total)] + Counted(step, done, total)
  }

  lemma CountedStep(step: ImportStep, done: nat, total: int)
    ensures Counted(step, done + 1, total) == Counted(step, done, total) + [Progress(step, done + 1, total)]
  {
    assert Counted(step, done + 1, total)[..done] == Counted(step, done, total);
  }

  /** The report of one more entity loaded extends the reports of a phase. */
  lemma ReportsStep(before: seq<Progress>, r: seq<Progress>, step: ImportStep, done: nat, total: nat)
    requires total > 0 && r == before + PhaseReports(step, done, total)
    ensures r + [Progress(step, done + 1, total)] == before + PhaseReports(step, done + 1, total)
  {
    CountedStep(step, done, total);
  }

  /** A phase that loads all its entities reports 0, 1, ..., total: the last report says it is complete. */
  lemma PhaseReportsComplete(step: ImportStep, total: nat)
    requires total > 0
    ensures var r := PhaseReports(step, total, total);
      |r| == total + 1 && r[0] == Progress(step, 0, total) && r[total] == Progress(step, total, total) &&
      forall i :: 0 <= i <= total ==> r[i].completed == i && r[i].total == total
  {
  }

  // ---------------------------------------------------------------------------
  // Texture slots

  /** `n` null placeholders. */
  function Nones<T>(n: nat): (r: seq<Option<T>>)
    ensures |r| == n && forall i :: 0 <= i < n ==> r[i].None?
  {
    seq(n, _ => None)
  }

  /** `base` with `Some(done[k])` written at index `order[k]`, in completion order. */
  function Placed<T>(base: seq<Option<T>>, order: seq<nat>, done: seq<T>): (r: seq<Option<T>>)
    requires |done| <= |order| && forall k :: 0 <= k < |done| ==> order[k] < |base|
    ensures |r| == |base|
    decreases |done|
  {
    if |done| == 0 then base
    else Placed(base, order, done[..|done| - 1])[order[|done| - 1] := Some(done[|done| - 1])]
  }

  /**
   * With every index completed once, each completed slot holds its own
   * result and every other slot keeps its placeholder.
   */
  lemma {:induction false} PlacedSlots<T>(base: seq<Option<T>>, order: seq<nat>, done: seq<T>)
    requires |done| <= |order| && forall k :: 0 <= k < |done| ==> order[k] < |base|
    requires NoDuplicates(order[..|done|])
    ensures forall k :: 0 <= k < |done| ==> Placed(base, order, done)[order[k]] == Some(done[k])
    ensures forall i :: 0 <= i < |base| && i !in order[..|done|] ==> Placed(base, order, done)[i] == base[i]
    decreases |done|
  {
    if |done| > 0 {
      var n := |done| - 1;
      assert order[..n + 1][..n] == order[..n];
      PlacedSlots(base, order, done[..n]);
      forall k | 0 <= k < n ensures order[k] != order[n] {
        assert order[k] in order[..n];
      }
    }
  }

  /** `order` holds each of `0 .. n - 1` exactly once: the completion order of `n` interleaved tasks. */
  predicate CompletionOrder(order: seq<nat>, n: nat) {
    |order| == n && NoDuplicates(order) &&
    (forall k :: 0 <= k < n ==> order[k] < n) && (forall j :: 0 <= j < n ==> j in order)
  }

  /** `LoadTexture(def)` for a texture of the document; an image index past the end throws. */
  function TextureResult(env: Env, data: Bytes, uri: Option<Uri>, buffers: seq<Option<Bytes>>, images: seq<Image>, def: Texture)
    : (r: Result<Texture2D, ImportError>)
    ensures def.source >= |images| ==> r == Err(ArgumentOutOfRange)
    ensures def.source < |images| ==> r == LoadTexture(env, data, uri, buffers, images, def)
  {
    if def.source < |images| then LoadTexture(env, data, uri, buffers, images, def) else Err(ArgumentOutOfRange)
  }

  /** The task completing `k`-th loads texture `idx`. */
  function TextureLoader(env: Env, data: Bytes, uri: Option<Uri>, buffers: seq<Option<Bytes>>, root: Root)
    : (nat, nat) -> Result<Texture2D, ImportError>
  {
    (k: nat, idx: nat) =>
      if idx < |root.textures| then TextureResult(env, data, uri, buffers, root.images, root.textures[idx])
      else Err(ArgumentOutOfRange)
  }

  // ---------------------------------------------------------------------------
  // Buffers and materials

  function BufferLoader(env: Env, data: Bytes, uri: Option<Uri>): (nat, Buffer) -> Result<Option<Bytes>, ImportError> {
    (i: nat, b: Buffer) => LoadBuffer(env, data, uri, b, i)
  }

  /** `LoadMaterial(def)` over the loaded textures; a texture index past the end throws. */
  function MaterialLoader(textures: seq<Option<Texture2D>>, flipByScale: bool): (nat, GltfSchema.Material) -> Result<Engine.Material, ImportError> {
    (i: nat, def: GltfSchema.Material) =>
      if TexturesResolve(def, textures) then Ok(LoadMaterial(def, textures, flipByScale)) else Err(ArgumentOutOfRange)
  }

  /** Every material of a document whose indices resolve loads once all its textures are loaded. */
  lemma MaterialsLoadWhenResolved(root: Root, textures: seq<Option<Texture2D>>, flipByScale: bool)
    requires IndicesResolve(root) && |textures| == |root.textures|
    ensures RunUntilError(MaterialLoader(textures, flipByScale), root.materials).1.None?
  {
    var run := RunUntilError(MaterialLoader(textures, flipByScale), root.materials);
    if run.1.Some? {
      ResolvedMaterialTextures(root, |run.0|, textures);
    }
  }

  /** When all `n` tasks complete, slot `j` of `n` placeholders holds the result of the task `k` that loaded `j`. */
  lemma CompletedSlot<T>(f: (nat, nat) -> Result<T, ImportError>, order: seq<nat>, n: nat, j: nat) returns (k: nat)
    requires CompletionOrder(order, n) && RunUntilError(f, order).1.None? && j < n
    ensures k < n && order[k] == j && f(k, j).Ok?
    ensures Placed(Nones(n), order, RunUntilError(f, order).0)[j] == Some(f(k, j).value)
  {
    var run := RunUntilError(f, order);
    assert order[..|run.0|] == order;
    PlacedSlots(Nones<T>(n), order, run.0);
    assert j in order;
    k :| 0 <= k < |order| && order[k] == j;
    assert f(k, order[k]) == Ok(run.0[k]);
  }

  /**
   * When every texture task completes, slot `j` holds texture `j`'s own
   * result, whatever the completion order.
   */
  lemma CompletedTexturesPlaced(env: Env, data: Bytes, uri: Option<Uri>, buffers: seq<Option<Bytes>>, root: Root, order: seq<nat>)
    requires CompletionOrder(order, |root.textures|)
    requires RunUntilError(TextureLoader(env, data, uri, buffers, root), order).1.None?
    ensures var run := RunUntilError(TextureLoader(env, data, uri, buffers, root), order);
      forall j :: 0 <= j < |root.textures| ==>
        TextureResult(env, data, uri, buffers, root.images, root.textures[j]).Ok? &&
        Placed(Nones(|root.textures|), order, run.0)[j] == Some(TextureResult(env, data, uri, buffers, root.images, root.textures[j]).value)
  {
    var n := |root.textures|;
    var f := TextureLoader(env, data, uri, buffers, root);
    var run := RunUntilError(f, order);
    forall j | 0 <= j < n
      ensures TextureResult(env, data, uri, buffers, root.images, root.textures[j]).Ok? &&
              Placed(Nones(n), order, run.0)[j] == Some(TextureResult(env, data, uri, buffers, root.images, root.textures[j]).value)
    {
      var k := CompletedSlot(f, order, n, j);
      assert f(k, j) == TextureResult(env, data, uri, buffers, root.images, root.textures[j]);
    }
  }

  /** `ParseFile`: the .gltf/.glb bytes of the input parsed as a document; a parser exception becomes `JsonParseException`. */
  function ParseResult(env: Env, data: Bytes): (r: Result<Root, ImportError>)
    ensures !env.isZip(data) ==> (r.Ok? <==> env.parseJson(data).Some?) && (r.Ok? ==> env.parseJson(data) == Some(r.value))
    ensures r.Err? ==> r.error == JsonParseException || GetGltfBytes(env, data).Err?
    ensures env.isZip(data) && GetGltfBytes(env, data).Err? ==> r == Err(Exception(NoGltfInZipArchive))
  {
    var gltf := GetGltfBytes(env, data);
    if gltf.Err? then Err(gltf.error)
    else
      var parsed := env.parseJson(gltf.value);
      if parsed.None? then Err(JsonParseException) else Ok(parsed.value)
  }

  /** The progress pairs of a read, reported under the read's step. */
  function ReadReports(step: ImportStep, progress: seq<(int, int)>): (r: seq<Progress>)
    ensures |r| == |progress| && forall i :: 0 <= i < |r| ==> r[i] == Progress(step, progress[i].0, progress[i].1)
  {
    seq(|progress|, i requires 0 <= i < |progress| => Progress(step, progress[i].0, progress[i].1))
  }

  // ---------------------------------------------------------------------------
  // Meshes

  /**
   * What stops `CreateMeshPrimitive` and the material lookup for one
   * primitive: an attribute or index buffer past the loaded buffers, no
   * POSITION attribute, or a material index past the loaded materials.
   */
  function PrimitiveError(p: MeshPrimitive, buffers: seq<Option<Bytes>>, materials: seq<Engine.Material>): (r: Option<ImportError>)
    ensures r.None? <==> PrimitiveBuffersIn(p, buffers) && (p.indices.Some? ==> p.indices.value.bufferView.buffer < |buffers|) &&
                         POSITION in p.attributes && (p.material.Some? && p.material.value >= 0 ==> p.material.value < |materials|)
    ensures r == Some(KeyNotFound) <==>
      PrimitiveBuffersIn(p, buffers) && (p.indices.Some? ==> p.indices.value.bufferView.buffer < |buffers|) && POSITION !in p.attributes
  {
    if !PrimitiveBuffersIn(p, buffers) then Some(ArgumentOutOfRange)
    else if p.indices.Some? && p.indices.value.bufferView.buffer >= |buffers| then Some(ArgumentOutOfRange)
    else if POSITION !in p.attributes then Some(KeyNotFound)
    else if p.material.Some? && p.material.value >= 0 && p.material.value >= |materials| then Some(ArgumentOutOfRange)
    else None
  }

  /** The material each primitive is paired with, or the exception its creation throws. */
  function PrimitiveLoader(buffers: seq<Option<Bytes>>, materials: seq<Engine.Material>, default: Engine.Material)
    : (nat, MeshPrimitive) -> Result<Engine.Material, ImportError>
  {
    (j: nat, p: MeshPrimitive) =>
      var e := PrimitiveError(p, buffers, materials);
      if e.Some? then Err(e.value) else Ok(PrimitiveMaterial(p, materials, default))
  }

  /** The mesh `CreateMeshPrimitive` creates: the POSITION accessor's vertex count, no blend shapes, no skinning. */
  function NewMeshData(p: MeshPrimitive): MeshData
    requires POSITION in p.attributes
  {
    MeshData(p.attributes[POSITION].count, [], None, [], None)
  }

  predicate MeshHasMorphTargets(m: Mesh) {
    exists j :: 0 <= j < |m.primitives| && HasMorphTargets(m.primitives[j])
  }

  /** The indices of the meshes with morph targets, in order: what `LoadMeshes` leaves in `MeshesWithMorphTargets`. */
  function MorphMeshes(meshes: seq<Mesh>): (r: seq<nat>)
    ensures forall i :: i in r <==> 0 <= i < |meshes| && MeshHasMorphTargets(meshes[i])
    ensures forall a, b :: 0 <= a < b < |r| ==> r[a] < r[b]
    decreases |meshes|
  {
    if |meshes| == 0 then []
    else
      var n := |meshes| - 1;
      var prev := MorphMeshes(meshes[..n]);
      assert forall i :: 0 <= i < n ==> meshes[..n][i] == meshes[i];
      assert forall i :: i in prev <==> 0 <= i < n && MeshHasMorphTargets(meshes[i]);
      if MeshHasMorphTargets(meshes[n]) then
        assert forall a :: 0 <= a < |prev| ==> prev[a] in prev && prev[a] < n;
        assert forall i :: i in prev + [n] <==> i in prev || i == n;
        prev + [n]
      else prev
  }

  /** One more mesh: its index is added exactly when it has morph targets. */
  lemma MorphMeshesStep(meshes: seq<Mesh>, i: nat)
    requires i < |meshes|
    ensures MorphMeshes(meshes[..i + 1]) == MorphMeshes(meshes[..i]) + (if MeshHasMorphTargets(meshes[i]) then [i] else [])
  {
    assert meshes[..i + 1][..i] == meshes[..i];
  }

  /** The list of meshes with morph targets, extended by mesh `i`, is the list for the first `i + 1` meshes. */
  lemma MorphListStep(before: seq<nat>, list: seq<nat>, meshes: seq<Mesh>, i: nat)
    requires i < |meshes| && list == before + MorphMeshes(meshes[..i])
    ensures list + (if MeshHasMorphTargets(meshes[i]) then [i] else []) == before + MorphMeshes(meshes[..i + 1])
  {
    MorphMeshesStep(meshes, i);
  }

  /**
   * What `CreateMeshObject` leaves for the primitives `ps` of one glTF
   * mesh: a (mesh, material) pair per primitive, the mesh created with
   * the primitive's vertex count and the material the primitive names.
   */
  ghost predicate MeshLoaded(prims: seq<Primitive>, ps: seq<MeshPrimitive>, meshes: map<MeshId, MeshData>,
                             buffers: seq<Option<Bytes>>, materials: seq<Engine.Material>, default: Engine.Material)
  {
    |prims| == |ps| &&
    forall j :: 0 <= j < |prims| ==>
      PrimitiveError(ps[j], buffers, materials).None? &&
      prims[j].mesh in meshes && meshes[prims[j].mesh] == NewMeshData(ps[j]) &&
      prims[j].material == PrimitiveMaterial(ps[j], materials, default)
  }

  /** `after` keeps every entry of `before`. */
  ghost predicate Extends<K, V>(before: map<K, V>, after: map<K, V>) {
    forall k :: k in before ==> k in after && after[k] == before[k]
  }

  /** Meshes created later leave a loaded mesh loaded. */
  lemma MeshLoadedKept(prims: seq<Primitive>, ps: seq<MeshPrimitive>, before: map<MeshId, MeshData>, after: map<MeshId, MeshData>,
                       buffers: seq<Option<Bytes>>, materials: seq<Engine.Material>, default: Engine.Material)
    requires MeshLoaded(prims, ps, before, buffers, materials, default) && Extends(before, after)
    ensures MeshLoaded(prims, ps, after, buffers, materials, default)
  {
    forall j | 0 <= j < |prims|
      ensures prims[j].mesh in after && after[prims[j].mesh] == NewMeshData(ps[j])
    {
      assert prims[j].mesh in before;
    }
  }

  /** One more primitive that passes its checks, with its newly created mesh `m`. */
  lemma MeshLoadedSnoc(prims: seq<Primitive>, ps: seq<MeshPrimitive>, i: nat, before: map<MeshId, MeshData>, m: MeshId,
                       buffers: seq<Option<Bytes>>, materials: seq<Engine.Material>, default: Engine.Material)
    requires i < |ps| && MeshLoaded(prims, ps[..i], before, buffers, materials, default) && m !in before
    requires PrimitiveError(ps[i], buffers, materials).None?
    ensures MeshLoaded(prims + [Primitive(m, PrimitiveMaterial(ps[i], materials, default))], ps[..i + 1],
                       before[m := NewMeshData(ps[i])], buffers, materials, default)
  {
    MeshLoadedKept(prims, ps[..i], before, before[m := NewMeshData(ps[i])], buffers, materials, default);
    assert ps[..i + 1] == ps[..i] + [ps[i]];
  }

  /** `added[k]` is what `CreateMeshObject` left for mesh `k` of `ms`. */
  ghost predicate MeshesLoaded(added: seq<seq<Primitive>>, ms: seq<Mesh>, meshes: map<MeshId, MeshData>,
                               buffers: seq<Option<Bytes>>, materials: seq<Engine.Material>, default: Engine.Material)
  {
    |added| == |ms| &&
    forall k :: 0 <= k < |added| ==> MeshLoaded(added[k], ms[k].primitives, meshes, buffers, materials, default)
  }

  /** One more mesh loaded, while the meshes created before it stay. */
  lemma MeshesLoadedSnoc(added: seq<seq<Primitive>>, ms: seq<Mesh>, i: nat, before: map<MeshId, MeshData>, after: map<MeshId, MeshData>,
                         prims: seq<Primitive>, buffers: seq<Option<Bytes>>, materials: seq<Engine.Material>, default: Engine.Material)
    requires i < |ms| && MeshesLoaded(added, ms[..i], before, buffers, materials, default) && Extends(before, after)
    requires MeshLoaded(prims, ms[i].primitives, after, buffers, materials, default)
    ensures MeshesLoaded(added + [prims], ms[..i + 1], after, buffers, materials, default)
  {
    forall k | 0 <= k < i
      ensures MeshLoaded(added[k], ms[k].primitives, after, buffers, materials, default)
    {
      assert ms[..i][k] == ms[k];
      MeshLoadedKept(added[k], ms[k].primitives, before, after, buffers, materials, default);
    }
  }

  lemma ExtendsTrans<K, V>(a: map<K, V>, b: map<K, V>, c: map<K, V>)
    requires Extends(a, b) && Extends(b, c)
    ensures Extends(a, c)
  {
  }

  /** The exception creating a mesh's primitives throws, if any: the first primitive's that throws. */
  function MeshError(m: Mesh, buffers: seq<Option<Bytes>>, materials: seq<Engine.Material>, default: Engine.Material): Option<ImportError> {
    RunUntilError(PrimitiveLoader(buffers, materials, default), m.primitives).1
  }

  /** `CreateMeshObject` for each mesh in turn; the first that throws ends the phase. */
  function MeshLoader(buffers: seq<Option<Bytes>>, materials: seq<Engine.Material>, default: Engine.Material)
    : (nat, Mesh) -> Result<(), ImportError>
  {
    (i: nat, m: Mesh) => var e := MeshError(m, buffers, materials, default); if e.Some? then Err(e.value) else Ok(())
  }

  /** Meshes created later leave loaded meshes loaded. */
  lemma MeshesLoadedKept(added: seq<seq<Primitive>>, ms: seq<Mesh>, before: map<MeshId, MeshData>, after: map<MeshId, MeshData>,
                         buffers: seq<Option<Bytes>>, materials: seq<Engine.Material>, default: Engine.Material)
    requires MeshesLoaded(added, ms, before, buffers, materials, default) && Extends(before, after)
    ensures MeshesLoaded(added, ms, after, buffers, materials, default)
  {
    forall k | 0 <= k < |added|
      ensures MeshLoaded(added[k], ms[k].primitives, after, buffers, materials, default)
    {
      MeshLoadedKept(added[k], ms[k].primitives, before, after, buffers, materials, default);
    }
  }

  /**
   * The mesh phase after its first `i` meshes: each has its entry in
   * `added`, the ones with morph targets are listed after `morph0`, and
   * the phase reported its start and one report per mesh after `reports0`.
   */
  ghost predicate MeshPhaseAt(meshes: seq<Mesh>, i: nat, buffers: seq<Option<Bytes>>, materials: seq<Engine.Material>,
                              default: Engine.Material, entries0: seq<seq<Primitive>>, entries: seq<seq<Primitive>>,
                              added: seq<seq<Primitive>>, worldMeshes: map<MeshId, MeshData>,
                              morph0: seq<nat>, morph: seq<nat>, reports0: seq<Progress>, reports: seq<Progress>)
  {
    i <= |RunUntilError(MeshLoader(buffers, materials, default), meshes).0| && entries == entries0 + added &&
    MeshesLoaded(added, meshes[..i], worldMeshes, buffers, materials, default) &&
    morph == morph0 + MorphMeshes(meshes[..i]) &&
    reports == reports0 + PhaseReports(MeshStep, i, |meshes|)
  }

  /**
   * The mesh phase at its end: it fails with the first mesh's exception,
   * and every mesh before that one is loaded.
   */
  ghost predicate MeshPhaseDone(meshes: seq<Mesh>, buffers: seq<Option<Bytes>>, materials: seq<Engine.Material>,
                                default: Engine.Material, outcome: Outcome<ImportError>, entries0: seq<seq<Primitive>>,
                                entries: seq<seq<Primitive>>, added: seq<seq<Primitive>>,
                                worldMeshes: map<MeshId, MeshData>, morph0: seq<nat>, morph: seq<nat>,
                                reports0: seq<Progress>, reports: seq<Progress>)
  {
    var run := RunUntilError(MeshLoader(buffers, materials, default), meshes);
    (outcome.Pass? <==> run.1.None?) && (run.1.Some? ==> outcome == Fail(run.1.value)) &&
    MeshPhaseAt(meshes, |run.0|, buffers, materials, default, entries0, entries, added, worldMeshes, morph0, morph, reports0, reports)
  }

  /** A document without meshes: nothing is loaded or reported. */
  lemma MeshPhaseEmpty(meshes: seq<Mesh>, buffers: seq<Option<Bytes>>, materials: seq<Engine.Material>, default: Engine.Material,
                       entries: seq<seq<Primitive>>, worldMeshes: map<MeshId, MeshData>, morph0: seq<nat>, reports0: seq<Progress>)
    requires |meshes| == 0
    ensures MeshPhaseDone(meshes, buffers, materials, default, Pass, entries, entries, [], worldMeshes, morph0, morph0, reports0, reports0)
  {
    assert meshes[..0] == [] && entries + [] == entries;
  }

  /** The phase starts by reporting `(MeshStep, 0, total)`. */
  lemma MeshPhaseStart(meshes: seq<Mesh>, buffers: seq<Option<Bytes>>, materials: seq<Engine.Material>, default: Engine.Material,
                       entries: seq<seq<Primitive>>, worldMeshes: map<MeshId, MeshData>, morph0: seq<nat>, reports0: seq<Progress>)
    requires |meshes| > 0
    ensures MeshPhaseAt(meshes, 0, buffers, materials, default, entries, entries, [], worldMeshes, morph0, morph0,
                        reports0, reports0 + [Progress(MeshStep, 0, |meshes|)])
  {
    assert meshes[..0] == [] && entries + [] == entries;
  }

  /** Mesh `i` loads: its entry, morph index and report are added. */
  lemma MeshPhaseStep(meshes: seq<Mesh>, i: nat, buffers: seq<Option<Bytes>>, materials: seq<Engine.Material>,
                      default: Engine.Material, entries0: seq<seq<Primitive>>, entries: seq<seq<Primitive>>,
                      added: seq<seq<Primitive>>, before: map<MeshId, MeshData>,
                      after: map<MeshId, MeshData>, prims: seq<Primitive>, morph0: seq<nat>, morph: seq<nat>,
                      reports0: seq<Progress>, reports: seq<Progress>)
    requires i < |meshes|
    requires MeshPhaseAt(meshes, i, buffers, materials, default, entries0, entries, added, before, morph0, morph, reports0, reports)
    requires MeshError(meshes[i], buffers, materials, default).None? && Extends(before, after)
    requires MeshLoaded(prims, meshes[i].primitives, after, buffers, materials, default)
    ensures MeshPhaseAt(meshes, i + 1, buffers, materials, default, entries0, entries + [prims], added + [prims], after, morph0,
                        morph + (if MeshHasMorphTargets(meshes[i]) then [i] else []),
                        reports0, reports + [Progress(MeshStep, i + 1, |meshes|)])
  {
    RunUntilErrorAt(MeshLoader(buffers, materials, default), meshes, i);
    MeshesLoadedSnoc(added, meshes, i, before, after, prims, buffers, materials, default);
    MorphListStep(morph0, morph, meshes, i);
    ReportsStep(reports0, reports, MeshStep, i, |meshes|);
    assert entries0 + added + [prims] == entries0 + (added + [prims]);
  }

  /** Mesh `i` throws: the phase ends with its exception, the meshes it created before throwing left in place. */
  lemma MeshPhaseFail(meshes: seq<Mesh>, i: nat, buffers: seq<Option<Bytes>>, materials: seq<Engine.Material>,
                      default: Engine.Material, entries0: seq<seq<Primitive>>, entries: seq<seq<Primitive>>,
                      added: seq<seq<Primitive>>, before: map<MeshId, MeshData>,
                      after: map<MeshId, MeshData>, morph0: seq<nat>, morph: seq<nat>,
                      reports0: seq<Progress>, reports: seq<Progress>)
    requires i < |meshes|
    requires MeshPhaseAt(meshes, i, buffers, materials, default, entries0, entries, added, before, morph0, morph, reports0, reports)
    requires MeshError(meshes[i], buffers, materials, default).Some? && Extends(before, after)
    ensures MeshPhaseDone(meshes, buffers, materials, default, Fail(MeshError(meshes[i], buffers, materials, default).value),
                          entries0, entries, added, after, morph0, morph, reports0, reports)
  {
    RunUntilErrorAt(MeshLoader(buffers, materials, default), meshes, i);
    MeshesLoadedKept(added, meshes[..i], before, after, buffers, materials, default);
  }

  /** Every mesh loaded: the phase passes. */
  lemma MeshPhaseComplete(meshes: seq<Mesh>, buffers: seq<Option<Bytes>>, materials: seq<Engine.Material>,
                          default: Engine.Material, entries0: seq<seq<Primitive>>, entries: seq<seq<Primitive>>,
                          added: seq<seq<Primitive>>, worldMeshes: map<MeshId, MeshData>,
                          morph0: seq<nat>, morph: seq<nat>, reports0: seq<Progress>, reports: seq<Progress>)
    requires MeshPhaseAt(meshes, |meshes|, buffers, materials, default, entries0, entries, added, worldMeshes, morph0, morph, reports0, reports)
    ensures MeshPhaseDone(meshes, buffers, materials, default, Pass, entries0, entries, added, worldMeshes, morph0, morph, reports0, reports)
  {
  }

  /**
   * Every mesh of a document whose indices resolve, and whose primitives
   * all have positions, loads once all buffers and materials are loaded.
   */
  lemma MeshesLoadWhenResolved(root: Root, buffers: seq<Option<Bytes>>, materials: seq<Engine.Material>, default: Engine.Material)
    requires IndicesResolve(root) && |buffers| == |root.buffers| && |materials| == |root.materials|
    requires forall m, j :: 0 <= m < |root.meshes| && 0 <= j < |root.meshes[m].primitives| ==> POSITION in root.meshes[m].primitives[j].attributes
    ensures RunUntilError(MeshLoader(buffers, materials, default), root.meshes).1.None?
  {
    forall i | 0 <= i < |root.meshes| ensures MeshError(root.meshes[i], buffers, materials, default).None? {
      var ps := root.meshes[i].primitives;
      assert forall j :: 0 <= j < |ps| ==> PrimitiveIn(ps[j], root);
      PrimitivesLoad(buffers, materials, default, ps);
    }
  }

  lemma PrimitivesLoad(buffers: seq<Option<Bytes>>, materials: seq<Engine.Material>, default: Engine.Material, ps: seq<MeshPrimitive>)
    requires forall j :: 0 <= j < |ps| ==> PrimitiveError(ps[j], buffers, materials).None?
    ensures RunUntilError(PrimitiveLoader(buffers, materials, default), ps).1.None?
  {
  }

  // ---------------------------------------------------------------------------
  // Morph targets

  /** How a loop over nodes or objects ended: ran to the end, left the method by `return`, or threw. */
  datatype Stop = Finished | Returned | Failed(error: ImportError)

  /**
   * The inner loop of `LoadMorphTargets(meshIndex)` over one node's
   * primitive objects: the (object, primitive) pairs given a
   * `SkinnedMeshRenderer`, in order, and how the loop ended. It returns
   * from the whole method at the first primitive without morph targets.
   */
  function NodeSwaps(objects: seq<ObjectId>, rootPrims: seq<MeshPrimitive>, meshPrims: seq<Primitive>, live: set<ObjectId>)
    : (r: (seq<(ObjectId, Primitive)>, Stop))
    ensures |r.0| <= |objects|
    ensures forall s :: 0 <= s < |r.0| ==>
      s < |rootPrims| && s < |meshPrims| && HasMorphTargets(rootPrims[s]) && r.0[s] == (objects[s], meshPrims[s]) && objects[s] in live
    ensures r.1 == Finished <==> |r.0| == |objects|
    ensures r.1 == Returned ==> |r.0| < |rootPrims| && !HasMorphTargets(rootPrims[|r.0|])
    decreases |objects|
  {
    if |objects| == 0 then ([], Finished)
    else
      var prev := NodeSwaps(objects[..|objects| - 1], rootPrims, meshPrims, live);
      if !prev.1.Finished? then prev
      else
        var i := |objects| - 1;
        if i >= |rootPrims| then (prev.0, Failed(ArgumentOutOfRange))
        else if !HasMorphTargets(rootPrims[i]) then (prev.0, Returned)
        else if i >= |meshPrims| then (prev.0, Failed(ArgumentOutOfRange))
        else if objects[i] !in live then (prev.0, Failed(ImportError.MissingReference))
        else (prev.0 + [(objects[i], meshPrims[i])], Finished)
  }

  /**
   * The outer loop over the nodes that use the mesh: a node missing from
   * `NodeToMeshPrimitives` throws, and an early return from one node's
   * objects skips every later node.
   */
  function MeshSwaps(nodeIndices: seq<nat>, prims: map<nat, seq<ObjectId>>, rootPrims: seq<MeshPrimitive>,
                     meshPrims: seq<Primitive>, live: set<ObjectId>)
    : (r: (seq<(ObjectId, Primitive)>, Stop))
    ensures forall s :: 0 <= s < |r.0| ==> r.0[s].0 in live && r.0[s].1 in meshPrims
    decreases |nodeIndices|
  {
    if |nodeIndices| == 0 then ([], Finished)
    else
      var prev := MeshSwaps(nodeIndices[..|nodeIndices| - 1], prims, rootPrims, meshPrims, live);
      if !prev.1.Finished? then prev
      else
        var k := nodeIndices[|nodeIndices| - 1];
        if k !in prims then (prev.0, Failed(KeyNotFound))
        else
          var inner := NodeSwaps(prims[k], rootPrims, meshPrims, live);
          (prev.0 + inner.0, inner.1)
  }

  /**
   * The early return as written: when primitive 0 of a mesh has no morph
   * targets, no object of any node gets a `SkinnedMeshRenderer` in this
   * step, even where later primitives have targets.
   */
  lemma {:induction false} FirstPlainPrimitiveStopsAll(nodeIndices: seq<nat>, prims: map<nat, seq<ObjectId>>,
                                                       rootPrims: seq<MeshPrimitive>, meshPrims: seq<Primitive>, live: set<ObjectId>)
    requires |rootPrims| > 0 && !HasMorphTargets(rootPrims[0])
    requires forall k :: k in nodeIndices ==> k in prims && |prims[k]| > 0
    ensures MeshSwaps(nodeIndices, prims, rootPrims, meshPrims, live).0 == []
    ensures |nodeIndices| > 0 ==> MeshSwaps(nodeIndices, prims, rootPrims, meshPrims, live).1 == Returned
    decreases |nodeIndices|
  {
    if |nodeIndices| > 0 {
      var front := nodeIndices[..|nodeIndices| - 1];
      var k := nodeIndices[|nodeIndices| - 1];
      assert forall j :: j in front ==> j in nodeIndices;
      FirstPlainPrimitiveStopsAll(front, prims, rootPrims, meshPrims, live);
      if |front| == 0 {
        NodeSwapsFirstPlain(prims[k], rootPrims, meshPrims, live);
      }
    }
  }

  /** A node whose first object's primitive has no morph targets returns at once, swapping nothing. */
  lemma {:induction false} NodeSwapsFirstPlain(objects: seq<ObjectId>, rootPrims: seq<MeshPrimitive>, meshPrims: seq<Primitive>, live: set<ObjectId>)
    requires |objects| > 0 && |rootPrims| > 0 && !HasMorphTargets(rootPrims[0])
    ensures NodeSwaps(objects, rootPrims, meshPrims, live) == ([], Returned)
    decreases |objects|
  {
    if |objects| > 1 {
      NodeSwapsFirstPlain(objects[..|objects| - 1], rootPrims, meshPrims, live);
    }
  }

  /** What `RemoveComponent<MeshRenderer>`, `RemoveComponent<MeshFilter>`, `GetOrAddComponent<SkinnedMeshRenderer>` and the renderer's mesh and material do to an object. */
  function SkinnedSwap(g: GameObject, p: Primitive): (r: GameObject)
    ensures r.components == g.components - {MeshRenderer, MeshFilter} + {SkinnedMeshRenderer}
    ensures r.sharedMesh == Some(p.mesh) && r.material == Some(p.material)
    ensures r.name == g.name && r.parent == g.parent && r.local == g.local && r.activeSelf == g.activeSelf
    ensures r.bones == g.bones && r.rootBone == g.rootBone
  {
    g.(components := g.components - {MeshRenderer, MeshFilter} + {SkinnedMeshRenderer},
       sharedMesh := Some(p.mesh), material := Some(p.material))
  }

  /** Swapping twice is swapping once: the skin step may meet objects the morph-target step already swapped. */
  lemma SkinnedSwapIdempotent(g: GameObject, p: Primitive)
    ensures SkinnedSwap(SkinnedSwap(g, p), p) == SkinnedSwap(g, p)
  {
    assert SkinnedSwap(SkinnedSwap(g, p), p).components == SkinnedSwap(g, p).components;
  }

  /** The swaps applied to the objects in order. */
  function ApplySwaps(objects: map<ObjectId, GameObject>, swaps: seq<(ObjectId, Primitive)>): (r: map<ObjectId, GameObject>)
    requires forall s :: 0 <= s < |swaps| ==> swaps[s].0 in objects
    ensures r.Keys == objects.Keys
    decreases |swaps|
  {
    if |swaps| == 0 then objects
    else
      var prev := ApplySwaps(objects, swaps[..|swaps| - 1]);
      var (o, p) := swaps[|swaps| - 1];
      prev[o := SkinnedSwap(prev[o], p)]
  }

  /** Objects named in no swap are unchanged, and every swapped object ends with a `SkinnedMeshRenderer` and no `MeshRenderer`. */
  lemma {:induction false} ApplySwapsEffect(objects: map<ObjectId, GameObject>, swaps: seq<(ObjectId, Primitive)>)
    requires forall s :: 0 <= s < |swaps| ==> swaps[s].0 in objects
    ensures forall o :: o in objects && (forall s :: 0 <= s < |swaps| ==> swaps[s].0 != o) ==>
      ApplySwaps(objects, swaps)[o] == objects[o]
    ensures forall s :: 0 <= s < |swaps| ==>
      SkinnedMeshRenderer in ApplySwaps(objects, swaps)[swaps[s].0].components &&
      MeshRenderer !in ApplySwaps(objects, swaps)[swaps[s].0].components
    decreases |swaps|
  {
    if |swaps| > 0 {
      var front := swaps[..|swaps| - 1];
      ApplySwapsEffect(objects, front);
      forall s | 0 <= s < |front| ensures front[s] == swaps[s] { }
    }
  }

  // ---------------------------------------------------------------------------
  // Skins

  const SkinSkipped := "Piglet: skipped loading skin "
  const SkinSkippedSuffix := ": skin data is empty/invalid"

  /** The error logged for a skin that is skipped. */
  function SkipMessage(skinIndex: nat): string {
    SkinSkipped + IntToString(skinIndex) + SkinSkippedSuffix
  }

  /** `GetBones`: the object of each joint's node, in joint order; a joint whose node was not created throws. */
  function GetBones(joints: seq<nat>, nodes: map<nat, ObjectId>): (r: Result<seq<ObjectId>, ImportError>)
    ensures r.Ok? <==> forall j :: 0 <= j < |joints| ==> joints[j] in nodes
    ensures r.Ok? ==> |r.value| == |joints| && forall j :: 0 <= j < |joints| ==> r.value[j] == nodes[joints[j]]
    ensures r.Err? ==> r.error == KeyNotFound
    decreases |joints|
  {
    if |joints| == 0 then Ok([])
    else
      var prev := GetBones(joints[..|joints| - 1], nodes);
      var last := joints[|joints| - 1];
      if prev.Err? then prev
      else if last !in nodes then Err(KeyNotFound)
      else Ok(prev.value + [nodes[last]])
  }

  /** The skin's root bone: the skeleton node's object, or null without a skeleton. */
  function RootBone(skin: Skin, nodes: map<nat, ObjectId>): (r: Result<Option<ObjectId>, ImportError>)
    ensures skin.skeleton.None? ==> r == Ok(None)
    ensures skin.skeleton.Some? ==> r == (if skin.skeleton.value in nodes then Ok(Some(nodes[skin.skeleton.value])) else Err(KeyNotFound))
  {
    if skin.skeleton.None? then Ok(None)
    else if skin.skeleton.value in nodes then Ok(Some(nodes[skin.skeleton.value]))
    else Err(KeyNotFound)
  }

  /** The nodes a skin is applied to, as written: the indexer `SkinToNodes[skinIndex]` throws for a skin no node uses. */
  function SkinTargets(skinToNodes: map<nat, seq<nat>>, skinIndex: nat): (r: Result<seq<nat>, ImportError>)
    ensures r.Ok? <==> skinIndex in skinToNodes
    ensures r.Ok? ==> r.value == skinToNodes[skinIndex]
    ensures r.Err? ==> r.error == KeyNotFound
  {
    if skinIndex in skinToNodes then Ok(skinToNodes[skinIndex]) else Err(KeyNotFound)
  }

  /**
   * A valid skin that no node uses is recorded nowhere in `SkinToNodes`,
   * and the lookup then aborts the whole import, although the skin has
   * nothing to apply to.
   */
  lemma UnusedSkinAborts()
    ensures var skins := [Skin([0], Some(Accessor(0, 1, BufferView(0, 0, 64))), None)];
      IsValidSkin(skins, 0) == Ok(true) && SkinTargets(map[], 0) == Err(KeyNotFound)
  {
  }

  /** The nodes a skin is applied to, with a skin no node uses applied to none (as `MeshToNodes` is read with `TryGetValue`). */
  function SkinTargetsOrEmpty(skinToNodes: map<nat, seq<nat>>, skinIndex: nat): (r: seq<nat>)
    ensures skinIndex in skinToNodes ==> r == skinToNodes[skinIndex]
    ensures skinIndex !in skinToNodes ==> r == []
  {
    ListOrEmpty(skinToNodes, skinIndex)
  }

  /** The corrected lookup never throws and agrees with the written one wherever that one succeeds. */
  lemma SkinTargetsOrEmptyAgrees(skinToNodes: map<nat, seq<nat>>, skinIndex: nat)
    ensures SkinTargets(skinToNodes, skinIndex).Ok? ==> SkinTargetsOrEmpty(skinToNodes, skinIndex) == SkinTargets(skinToNodes, skinIndex).value
    ensures SkinTargets(skinToNodes, skinIndex).Err? ==> SkinTargetsOrEmpty(skinToNodes, skinIndex) == []
  {
  }

  /** What `SetupSkinnedMeshPrimitive` does to a primitive object: the renderer swap, then the bones and root bone. */
  function SkinnedPrimitive(g: GameObject, p: Primitive, bones: seq<ObjectId>, rootBone: Option<ObjectId>): (r: GameObject)
    ensures SkinnedMeshRenderer in r.components && MeshRenderer !in r.components && MeshFilter !in r.components
    ensures r.bones == bones && r.rootBone == rootBone && r.sharedMesh == Some(p.mesh) && r.material == Some(p.material)
    ensures r.name == g.name && r.parent == g.parent && r.local == g.local && r.activeSelf == g.activeSelf
  {
    SkinnedSwap(g, p).(bones := bones, rootBone := rootBone)
  }

  /** The name `LoadScene` gives the scene root: the input file's name without extension, or "model" without a URI. */
  function SceneName(env: Env, uri: Option<Uri>): string {
    if uri.Some? then env.fileNameWithoutExtension(uri.value.absolutePath) else "model"
  }
}
