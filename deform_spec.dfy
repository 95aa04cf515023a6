/**
 * What the morph-target and skin steps of `GltfImporter` compute, stated on
 * values: the blend-shape frames appended to each primitive's mesh, the
 * objects whose `MeshRenderer` is replaced by a `SkinnedMeshRenderer`, the
 * bones, bone weights and bind poses of skinned primitives, and the
 * progress reports of both phases. Each loop of the source is a function
 * over the rest of its list, stopping at the first exception.
 */
module DeformSpec {
  import opened Wrappers
  import opened Engine
  import opened GltfSchema
  import opened ImportEnv
  import opened GltfImporterRules
  import opened ImportCaches
  import opened ImporterSpec

  /** What both steps read and leave alone: the document, the buffers and the cache's dictionaries. */
  datatype DeformInputs = DeformInputs(
    env: Env,
    root: Root,
    buffers: seq<Option<Bytes>>,
    /** `Meshes`: the (mesh, material) pair of each primitive of each glTF mesh. */
    primitives: seq<seq<Primitive>>,
    nodes: map<nat, ObjectId>,
    meshToNodes: map<nat, seq<nat>>,
    skinToNodes: map<nat, seq<nat>>,
    nodeToMeshPrimitives: map<nat, seq<ObjectId>>)

  /** What both steps change: the engine's meshes and objects, the error log and the progress reports. */
  datatype DeformState = DeformState(meshes: map<MeshId, MeshData>, objects: map<ObjectId, GameObject>,
                                     errorLog: seq<string>, reports: seq<Progress>)

  function OutcomeOf(e: Option<ImportError>): (r: Outcome<ImportError>)
    ensures r.Pass? <==> e.None?
    ensures e.Some? ==> r == Fail(e.value)
  {
    if e.Some? then Fail(e.value) else Pass
  }

  function StopOutcome(stop: Stop): (r: Outcome<ImportError>)
    ensures r.Pass? <==> !stop.Failed?
    ensures stop.Failed? ==> r == Fail(stop.error)
  {
    if stop.Failed? then Fail(stop.error) else Pass
  }

  // ---------------------------------------------------------------------------
  // What both steps keep

  /** Meshes keep their keys and everything but their blend shapes, whose earlier frames stay first. */
  ghost predicate FramesAppended(before: map<MeshId, MeshData>, after: map<MeshId, MeshData>) {
    before.Keys == after.Keys &&
    forall m :: m in before ==>
      after[m] == before[m].(blendShapes := after[m].blendShapes) && before[m].blendShapes <= after[m].blendShapes
  }

  /** Meshes keep their keys and everything but their bone weights and bind poses. */
  ghost predicate SkinDataOnly(before: map<MeshId, MeshData>, after: map<MeshId, MeshData>) {
    before.Keys == after.Keys &&
    forall m :: m in before ==> after[m] == before[m].(boneWeights := after[m].boneWeights, bindposes := after[m].bindposes)
  }

  /** What a swap leaves of an object: its name, place and activity, with a `SkinnedMeshRenderer` as its only renderer. */
  ghost predicate SwappedFrom(g: GameObject, h: GameObject) {
    h.name == g.name && h.parent == g.parent && h.local == g.local && h.activeSelf == g.activeSelf &&
    SkinnedMeshRenderer in h.components && MeshRenderer !in h.components && MeshFilter !in h.components
  }

  /** The same objects, each either unchanged or given a `SkinnedMeshRenderer` in place of its `MeshRenderer`. */
  ghost predicate RenderersSwapped(before: map<ObjectId, GameObject>, after: map<ObjectId, GameObject>) {
    before.Keys == after.Keys &&
    forall o :: o in before ==> after[o] == before[o] || SwappedFrom(before[o], after[o])
  }

  lemma FramesAppendedTrans(a: map<MeshId, MeshData>, b: map<MeshId, MeshData>, c: map<MeshId, MeshData>)
    requires FramesAppended(a, b) && FramesAppended(b, c)
    ensures FramesAppended(a, c)
  {
    forall m | m in a
      ensures c[m] == a[m].(blendShapes := c[m].blendShapes) && a[m].blendShapes <= c[m].blendShapes
    {
      assert b[m] == a[m].(blendShapes := b[m].blendShapes);
    }
  }

  lemma SkinDataOnlyTrans(a: map<MeshId, MeshData>, b: map<MeshId, MeshData>, c: map<MeshId, MeshData>)
    requires SkinDataOnly(a, b) && SkinDataOnly(b, c)
    ensures SkinDataOnly(a, c)
  {
    forall m | m in a
      ensures c[m] == a[m].(boneWeights := c[m].boneWeights, bindposes := c[m].bindposes)
    {
      assert b[m] == a[m].(boneWeights := b[m].boneWeights, bindposes := b[m].bindposes);
    }
  }

  lemma RenderersSwappedTrans(a: map<ObjectId, GameObject>, b: map<ObjectId, GameObject>, c: map<ObjectId, GameObject>)
    requires RenderersSwapped(a, b) && RenderersSwapped(b, c)
    ensures RenderersSwapped(a, c)
  {
  }

  // ---------------------------------------------------------------------------
  // Morph targets

  /** `AddBlendShapeFrame` for target `t` of a primitive of mesh `meshIndex`. */
  function TargetLoader(env: Env, buffers: seq<Option<Bytes>>, meshIndex: nat): (nat, MorphTarget) -> Result<BlendShapeFrame, ImportError> {
    (t: nat, target: MorphTarget) => MorphFrame(env, buffers, meshIndex, t, target)
  }

  /** Mesh `m` with `frames` appended to its blend shapes. */
  function AddFrames(meshes: map<MeshId, MeshData>, m: MeshId, frames: seq<BlendShapeFrame>): map<MeshId, MeshData>
    requires m in meshes
  {
    meshes[m := meshes[m].(blendShapes := meshes[m].blendShapes + frames)]
  }

  /**
   * `LoadMorphTargets(mesh, meshIndex, i)`: nothing for a primitive without
   * morph targets; otherwise one frame per target appended to mesh `m`, in
   * order, until a target throws. Appending to a mesh that is gone throws
   * once the first frame has been read.
   */
  function PrimitiveMorph(inp: DeformInputs, meshIndex: nat, i: nat, m: MeshId, meshes: map<MeshId, MeshData>)
    : (map<MeshId, MeshData>, Outcome<ImportError>)
  {
    var rootMeshes := inp.root.meshes;
    if meshIndex >= |rootMeshes| || i >= |rootMeshes[meshIndex].primitives| then (meshes, Fail(ArgumentOutOfRange))
    else
      var p := rootMeshes[meshIndex].primitives[i];
      if !HasMorphTargets(p) then (meshes, Pass)
      else
        var run := RunUntilError(TargetLoader(inp.env, inp.buffers, meshIndex), p.targets.value);
        if m !in meshes then (meshes, Fail(if |run.0| == 0 && run.1.Some? then run.1.value else ImportError.MissingReference))
        else (AddFrames(meshes, m, run.0), OutcomeOf(run.1))
  }

  lemma AddNoFrames(meshes: map<MeshId, MeshData>, m: MeshId)
    requires m in meshes
    ensures AddFrames(meshes, m, []) == meshes
  {
    assert meshes[m].blendShapes + [] == meshes[m].blendShapes;
    assert meshes[m].(blendShapes := meshes[m].blendShapes) == meshes[m];
  }

  lemma AddFramesSnoc(meshes: map<MeshId, MeshData>, m: MeshId, frames: seq<BlendShapeFrame>, f: BlendShapeFrame)
    requires m in meshes
    ensures var after := AddFrames(meshes, m, frames);
      AddFrames(after, m, [f]) == AddFrames(meshes, m, frames + [f])
  {
    assert meshes[m].blendShapes + frames + [f] == meshes[m].blendShapes + (frames + [f]);
  }

  /** The loop of `LoadMorphTargets(meshIndex)` over the mesh's primitives, from primitive `i` on. */
  function MeshFrames(inp: DeformInputs, meshIndex: nat, prims: seq<Primitive>, i: nat, meshes: map<MeshId, MeshData>)
    : (map<MeshId, MeshData>, Outcome<ImportError>)
    decreases |prims| - i
  {
    if i >= |prims| then (meshes, Pass)
    else
      var r := PrimitiveMorph(inp, meshIndex, i, prims[i].mesh, meshes);
      if r.1.Fail? then r else MeshFrames(inp, meshIndex, prims, i + 1, r.0)
  }

  /** `_root.Meshes[meshIndex].Primitives`, empty when the index is out of range (the swap loop then throws on its first check). */
  function RootPrimitives(root: Root, meshIndex: nat): seq<MeshPrimitive> {
    if meshIndex < |root.meshes| then root.meshes[meshIndex].primitives else []
  }

  /**
   * `LoadMorphTargets(meshIndex)`: the frames of each primitive, then, when
   * some node uses the mesh, the renderer swaps of `MeshSwaps`.
   */
  function MeshMorph(inp: DeformInputs, meshIndex: nat, s: DeformState): (DeformState, Outcome<ImportError>) {
    if meshIndex >= |inp.primitives| then (s, Fail(ArgumentOutOfRange))
    else
      var prims := inp.primitives[meshIndex];
      var f := MeshFrames(inp, meshIndex, prims, 0, s.meshes);
      var s1 := s.(meshes := f.0);
      if f.1.Fail? || meshIndex !in inp.meshToNodes then (s1, f.1)
      else
        var sw := MeshSwaps(inp.meshToNodes[meshIndex], inp.nodeToMeshPrimitives, RootPrimitives(inp.root, meshIndex),
                            prims, s.objects.Keys);
        (s1.(objects := ApplySwaps(s.objects, sw.0)), StopOutcome(sw.1))
  }

  /** The loop of `LoadMorphTargets()` from entry `i` of the list on: each mesh, then its report. */
  function MorphSteps(inp: DeformInputs, list: seq<nat>, i: nat, s: DeformState): (DeformState, Outcome<ImportError>)
    decreases |list| - i
  {
    if i >= |list| then (s, Pass)
    else
      var r := MeshMorph(inp, list[i], s);
      if r.1.Fail? then r
      else MorphSteps(inp, list, i + 1, r.0.(reports := r.0.reports + [Progress(MorphTargetStep, i + 1, |list|)]))
  }

  /** `LoadMorphTargets()`: nothing for an empty list; else a start report, then each mesh and its report. */
  function LoadMorphTargetsSpec(inp: DeformInputs, list: seq<nat>, s: DeformState): (DeformState, Outcome<ImportError>) {
    if |list| == 0 then (s, Pass)
    else MorphSteps(inp, list, 0, s.(reports := s.reports + [Progress(MorphTargetStep, 0, |list|)]))
  }

  // Morph targets: properties

  /** The run over the first `k` targets agrees with `MorphFrames`: it stops exactly when that fails, and otherwise yields its frames. */
  lemma {:induction false} RunMatchesMorphFrames(env: Env, buffers: seq<Option<Bytes>>, meshIndex: nat,
                                                 targets: seq<MorphTarget>, k: nat)
    requires k <= |targets|
    ensures var run := RunUntilError(TargetLoader(env, buffers, meshIndex), targets[..k]);
      var frames := MorphFrames(env, buffers, meshIndex, targets, k);
      (run.1.None? <==> frames.Ok?) && (frames.Ok? ==> run.0 == frames.value)
    decreases k
  {
    var load := TargetLoader(env, buffers, meshIndex);
    if k > 0 {
      RunMatchesMorphFrames(env, buffers, meshIndex, targets, k - 1);
      assert targets[..k][..k - 1] == targets[..k - 1];
      assert targets[..k][k - 1] == targets[k - 1];
    }
  }

  /**
   * On a mesh that exists, a primitive's step succeeds exactly when
   * `PrimitiveFrames` does, and then appends exactly those frames.
   */
  lemma PrimitiveMorphFrames(inp: DeformInputs, meshIndex: nat, i: nat, m: MeshId, meshes: map<MeshId, MeshData>)
    requires meshIndex < |inp.root.meshes| && i < |inp.root.meshes[meshIndex].primitives| && m in meshes
    ensures var p := inp.root.meshes[meshIndex].primitives[i];
      var frames := PrimitiveFrames(inp.env, inp.buffers, meshIndex, p);
      var r := PrimitiveMorph(inp, meshIndex, i, m, meshes);
      (r.1.Pass? <==> frames.Ok?) && (frames.Ok? ==> r.0 == AddFrames(meshes, m, frames.value))
  {
    var p := inp.root.meshes[meshIndex].primitives[i];
    if HasMorphTargets(p) {
      var targets := p.targets.value;
      RunMatchesMorphFrames(inp.env, inp.buffers, meshIndex, targets, |targets|);
      assert targets[..|targets|] == targets;
    } else {
      AddNoFrames(meshes, m);
    }
  }

  lemma PrimitiveMorphAppends(inp: DeformInputs, meshIndex: nat, i: nat, m: MeshId, meshes: map<MeshId, MeshData>)
    ensures FramesAppended(meshes, PrimitiveMorph(inp, meshIndex, i, m, meshes).0)
  {
  }

  lemma {:induction false} MeshFramesAppend(inp: DeformInputs, meshIndex: nat, prims: seq<Primitive>, i: nat,
                                            meshes: map<MeshId, MeshData>)
    ensures FramesAppended(meshes, MeshFrames(inp, meshIndex, prims, i, meshes).0)
    decreases |prims| - i
  {
    if i < |prims| {
      var r := PrimitiveMorph(inp, meshIndex, i, prims[i].mesh, meshes);
      PrimitiveMorphAppends(inp, meshIndex, i, prims[i].mesh, meshes);
      if r.1.Pass? {
        MeshFramesAppend(inp, meshIndex, prims, i + 1, r.0);
        FramesAppendedTrans(meshes, r.0, MeshFrames(inp, meshIndex, prims, i + 1, r.0).0);
      }
    }
  }

  /** Swapping renderers keeps every object's name and place, and leaves it unchanged or with a `SkinnedMeshRenderer` only. */
  lemma {:induction false} ApplySwapsSwapped(objects: map<ObjectId, GameObject>, swaps: seq<(ObjectId, Primitive)>)
    requires forall s :: 0 <= s < |swaps| ==> swaps[s].0 in objects
    ensures RenderersSwapped(objects, ApplySwaps(objects, swaps))
    decreases |swaps|
  {
    if |swaps| > 0 {
      var front := swaps[..|swaps| - 1];
      ApplySwapsSwapped(objects, front);
      var prev := ApplySwaps(objects, front);
      var (o, p) := swaps[|swaps| - 1];
      assert SwappedFrom(prev[o], SkinnedSwap(prev[o], p));
      assert RenderersSwapped(prev, prev[o := SkinnedSwap(prev[o], p)]);
      RenderersSwappedTrans(objects, prev, ApplySwaps(objects, swaps));
    }
  }

  /** Swapping along `a + b` is swapping along `a`, then along `b`. */
  lemma {:induction false} ApplySwapsAppend(objects: map<ObjectId, GameObject>, a: seq<(ObjectId, Primitive)>,
                                            b: seq<(ObjectId, Primitive)>)
    requires forall s :: 0 <= s < |a| ==> a[s].0 in objects
    requires forall s :: 0 <= s < |b| ==> b[s].0 in objects
    ensures forall s :: 0 <= s < |a + b| ==> (a + b)[s].0 in objects
    ensures ApplySwaps(objects, a + b) == ApplySwaps(ApplySwaps(objects, a), b)
    decreases |b|
  {
    assert forall s :: 0 <= s < |a + b| ==> (a + b)[s].0 in objects by {
      forall s | 0 <= s < |a + b| ensures (a + b)[s].0 in objects {
        if s >= |a| {
          assert (a + b)[s] == b[s - |a|];
        }
      }
    }
    if |b| == 0 {
      assert a + b == a;
    } else {
      var front := b[..|b| - 1];
      ApplySwapsAppend(objects, a, front);
      var ab := a + b;
      assert ab[..|ab| - 1] == a + front;
      assert ab[|ab| - 1] == b[|b| - 1];
      ApplySwapsSnoc(objects, ab);
      ApplySwapsSnoc(ApplySwaps(objects, a), b);
    }
  }

  /** The last swap of a list is applied after all the others. */
  lemma ApplySwapsSnoc(objects: map<ObjectId, GameObject>, swaps: seq<(ObjectId, Primitive)>)
    requires |swaps| > 0 && forall s :: 0 <= s < |swaps| ==> swaps[s].0 in objects
    ensures var prev := ApplySwaps(objects, swaps[..|swaps| - 1]);
      var last := swaps[|swaps| - 1];
      ApplySwaps(objects, swaps) == prev[last.0 := SkinnedSwap(prev[last.0], last.1)]
  {
  }

  /** Once the first `n` nodes have stopped the swap loop, later nodes change nothing. */
  lemma {:induction false} MeshSwapsStops(nodeIndices: seq<nat>, prims: map<nat, seq<ObjectId>>, rootPrims: seq<MeshPrimitive>,
                                          meshPrims: seq<Primitive>, live: set<ObjectId>, n: nat)
    requires n <= |nodeIndices| && !MeshSwaps(nodeIndices[..n], prims, rootPrims, meshPrims, live).1.Finished?
    ensures MeshSwaps(nodeIndices, prims, rootPrims, meshPrims, live) == MeshSwaps(nodeIndices[..n], prims, rootPrims, meshPrims, live)
    decreases |nodeIndices|
  {
    if n < |nodeIndices| {
      var front := nodeIndices[..|nodeIndices| - 1];
      assert front[..n] == nodeIndices[..n];
      MeshSwapsStops(front, prims, rootPrims, meshPrims, live, n);
    } else {
      assert nodeIndices[..n] == nodeIndices;
    }
  }

  /** Once the first `n` objects have stopped a node's loop, later objects change nothing. */
  lemma {:induction false} NodeSwapsStops(objects: seq<ObjectId>, rootPrims: seq<MeshPrimitive>, meshPrims: seq<Primitive>,
                                          live: set<ObjectId>, n: nat)
    requires n <= |objects| && !NodeSwaps(objects[..n], rootPrims, meshPrims, live).1.Finished?
    ensures NodeSwaps(objects, rootPrims, meshPrims, live) == NodeSwaps(objects[..n], rootPrims, meshPrims, live)
    decreases |objects|
  {
    if n < |objects| {
      var front := objects[..|objects| - 1];
      assert front[..n] == objects[..n];
      NodeSwapsStops(front, rootPrims, meshPrims, live, n);
    } else {
      assert objects[..n] == objects;
    }
  }

  /** One step of a node's swap loop: the object it blocks on ends the loop, any other is swapped. */
  lemma NodeSwapsStep(objects: seq<ObjectId>, rootPrims: seq<MeshPrimitive>, meshPrims: seq<Primitive>,
                      live: set<ObjectId>, i: nat)
    requires i < |objects| && NodeSwaps(objects[..i], rootPrims, meshPrims, live).1.Finished?
    ensures var prev := NodeSwaps(objects[..i], rootPrims, meshPrims, live).0;
      if i >= |rootPrims| || !HasMorphTargets(rootPrims[i]) || i >= |meshPrims| || objects[i] !in live then
        NodeSwaps(objects, rootPrims, meshPrims, live) ==
          (prev, if i >= |rootPrims| then Failed(ArgumentOutOfRange)
                 else if !HasMorphTargets(rootPrims[i]) then Returned
                 else if i >= |meshPrims| then Failed(ArgumentOutOfRange)
                 else Failed(ImportError.MissingReference))
      else
        NodeSwaps(objects[..i + 1], rootPrims, meshPrims, live) == (prev + [(objects[i], meshPrims[i])], Finished)
  {
    assert objects[..i + 1][..i] == objects[..i];
    if i >= |rootPrims| || !HasMorphTargets(rootPrims[i]) || i >= |meshPrims| || objects[i] !in live {
      NodeSwapsStops(objects, rootPrims, meshPrims, live, i + 1);
    }
  }

  /** One mesh's step only appends frames and swaps renderers; it logs nothing and reports nothing. */
  lemma MeshMorphKeeps(inp: DeformInputs, meshIndex: nat, s: DeformState)
    ensures var r := MeshMorph(inp, meshIndex, s).0;
      FramesAppended(s.meshes, r.meshes) && RenderersSwapped(s.objects, r.objects) &&
      r.errorLog == s.errorLog && r.reports == s.reports
  {
    if meshIndex < |inp.primitives| {
      MeshFramesAppend(inp, meshIndex, inp.primitives[meshIndex], 0, s.meshes);
      if meshIndex in inp.meshToNodes {
        var sw := MeshSwaps(inp.meshToNodes[meshIndex], inp.nodeToMeshPrimitives, RootPrimitives(inp.root, meshIndex),
                            inp.primitives[meshIndex], s.objects.Keys);
        ApplySwapsSwapped(s.objects, sw.0);
      }
    }
  }

  lemma {:induction false} MorphStepsKeep(inp: DeformInputs, list: seq<nat>, i: nat, s: DeformState, base: seq<Progress>)
    requires i <= |list| && s.reports == base + Counted(MorphTargetStep, i, |list|)
    ensures var r := MorphSteps(inp, list, i, s);
      FramesAppended(s.meshes, r.0.meshes) && RenderersSwapped(s.objects, r.0.objects) && r.0.errorLog == s.errorLog &&
      (r.1.Pass? ==> r.0.reports == base + Counted(MorphTargetStep, |list|, |list|)) &&
      (r.1.Fail? ==> exists d :: i <= d < |list| && r.0.reports == base + Counted(MorphTargetStep, d, |list|))
    decreases |list| - i
  {
    if i < |list| {
      var r := MeshMorph(inp, list[i], s);
      MeshMorphKeeps(inp, list[i], s);
      if r.1.Pass? {
        var s1 := r.0.(reports := r.0.reports + [Progress(MorphTargetStep, i + 1, |list|)]);
        CountedStep(MorphTargetStep, i, |list|);
        MorphStepsKeep(inp, list, i + 1, s1, base);
        var t := MorphSteps(inp, list, i + 1, s1).0;
        FramesAppendedTrans(s.meshes, s1.meshes, t.meshes);
        RenderersSwappedTrans(s.objects, s1.objects, t.objects);
      }
    }
  }

  /**
   * The morph-target step only appends blend-shape frames and swaps
   * renderers: meshes and objects keep everything else, nothing is logged,
   * and the reports are the phase's, complete exactly when it succeeds.
   */
  lemma LoadMorphTargetsKeeps(inp: DeformInputs, list: seq<nat>, s: DeformState)
    ensures var r := LoadMorphTargetsSpec(inp, list, s);
      FramesAppended(s.meshes, r.0.meshes) && RenderersSwapped(s.objects, r.0.objects) && r.0.errorLog == s.errorLog &&
      (r.1.Pass? ==> r.0.reports == s.reports + PhaseReports(MorphTargetStep, |list|, |list|)) &&
      (r.1.Fail? ==> exists d :: 0 <= d < |list| && r.0.reports == s.reports + PhaseReports(MorphTargetStep, d, |list|))
  {
    if |list| > 0 {
      var base := s.reports + [Progress(MorphTargetStep, 0, |list|)];
      MorphStepsKeep(inp, list, 0, s.(reports := base), base);
      var r := LoadMorphTargetsSpec(inp, list, s);
      if r.1.Fail? {
        var d :| 0 <= d < |list| && r.0.reports == base + Counted(MorphTargetStep, d, |list|);
        assert r.0.reports == s.reports + PhaseReports(MorphTargetStep, d, |list|);
      }
    }
  }

  // ---------------------------------------------------------------------------
  // Skins

  /**
   * `SetupSkinnedMeshPrimitive(nodeIndex, i, ...)` for a node whose mesh is
   * `meshIndex`: the primitive's object gets its `SkinnedMeshRenderer`,
   * bones and root bone, then the primitive's mesh its bone weights (with
   * any error `GetBoneWeights` logs) and bind poses.
   */
  function SkinPrimitive(inp: DeformInputs, nodeIndex: nat, meshIndex: nat, i: nat, bindposes: seq<Matrix>,
                         bones: seq<ObjectId>, rootBone: Option<ObjectId>, s: DeformState): (DeformState, Outcome<ImportError>)
    requires meshIndex < |inp.primitives| && i < |inp.primitives[meshIndex]|
  {
    var prim := inp.primitives[meshIndex][i];
    if nodeIndex !in inp.nodeToMeshPrimitives then (s, Fail(KeyNotFound))
    else if i >= |inp.nodeToMeshPrimitives[nodeIndex]| then (s, Fail(ArgumentOutOfRange))
    else
      var o := inp.nodeToMeshPrimitives[nodeIndex][i];
      if o !in s.objects then (s, Fail(ImportError.MissingReference))
      else
        var s1 := s.(objects := s.objects[o := SkinnedPrimitive(s.objects[o], prim, bones, rootBone)]);
        if meshIndex >= |inp.root.meshes| || i >= |inp.root.meshes[meshIndex].primitives| then (s1, Fail(ArgumentOutOfRange))
        else
          var p := inp.root.meshes[meshIndex].primitives[i];
          if !SkinBuffersIn(p, inp.buffers) then (s1, Fail(ArgumentOutOfRange))
          else if prim.mesh !in s1.meshes then (s1, Fail(ImportError.MissingReference))
          else
            var data := s1.meshes[prim.mesh];
            var weights := GetBoneWeights(inp.env, inp.buffers, p, data.vertexCount);
            (s1.(meshes := s1.meshes[prim.mesh := data.(boneWeights := weights.0, bindposes := bindposes)],
                 errorLog := s1.errorLog + weights.1), Pass)
  }

  /** The loop of `LoadSkin` over the primitives of one node's mesh, from primitive `i` on. */
  function SkinPrimitives(inp: DeformInputs, nodeIndex: nat, meshIndex: nat, i: nat, bindposes: seq<Matrix>,
                          bones: seq<ObjectId>, rootBone: Option<ObjectId>, s: DeformState): (DeformState, Outcome<ImportError>)
    requires meshIndex < |inp.primitives|
    decreases |inp.primitives[meshIndex]| - i
  {
    if i >= |inp.primitives[meshIndex]| then (s, Pass)
    else
      var r := SkinPrimitive(inp, nodeIndex, meshIndex, i, bindposes, bones, rootBone, s);
      if r.1.Fail? then r else SkinPrimitives(inp, nodeIndex, meshIndex, i + 1, bindposes, bones, rootBone, r.0)
  }

  /** The loop of `LoadSkin` over the nodes using the skin, from entry `j` on; a node without a mesh is skipped. */
  function SkinNodes(inp: DeformInputs, targets: seq<nat>, j: nat, bindposes: seq<Matrix>,
                     bones: seq<ObjectId>, rootBone: Option<ObjectId>, s: DeformState): (DeformState, Outcome<ImportError>)
    decreases |targets| - j
  {
    if j >= |targets| then (s, Pass)
    else
      var k := targets[j];
      if k >= |inp.root.nodes| then (s, Fail(ArgumentOutOfRange))
      else if inp.root.nodes[k].mesh.None? then SkinNodes(inp, targets, j + 1, bindposes, bones, rootBone, s)
      else
        var meshIndex := inp.root.nodes[k].mesh.value;
        if meshIndex >= |inp.primitives| then (s, Fail(ArgumentOutOfRange))
        else
          var r := SkinPrimitives(inp, k, meshIndex, 0, bindposes, bones, rootBone, s);
          if r.1.Fail? then r else SkinNodes(inp, targets, j + 1, bindposes, bones, rootBone, r.0)
  }

  /** `GetBindPoses`: the inverse bind matrices, read from the buffer their accessor names. */
  function BindPoses(inp: DeformInputs, acc: Accessor): (r: Result<seq<Matrix>, ImportError>)
    ensures r.Ok? <==> acc.bufferView.buffer < |inp.buffers|
    ensures r.Err? ==> r.error == ArgumentOutOfRange
  {
    if acc.bufferView.buffer < |inp.buffers| then Ok(inp.env.readMatrices(acc, inp.buffers[acc.bufferView.buffer]))
    else Err(ArgumentOutOfRange)
  }

  /**
   * `LoadSkin(skinIndex)`: an invalid skin is logged and skipped; a valid
   * one has its bind poses, bones and root bone read, then is applied to
   * every primitive of every node that uses it. A skin no node uses is
   * applied to none (see `UnusedSkinAborts` for the lookup as written).
   */
  function LoadSkinSpec(inp: DeformInputs, skinIndex: nat, s: DeformState): (DeformState, Outcome<ImportError>) {
    var valid := IsValidSkin(inp.root.skins, skinIndex);
    if valid.Err? then (s, Fail(valid.error))
    else if !valid.value then (s.(errorLog := s.errorLog + [SkipMessage(skinIndex)]), Pass)
    else
      var skin := inp.root.skins[skinIndex];
      var poses := BindPoses(inp, skin.inverseBindMatrices.value);
      var bones := GetBones(skin.joints, inp.nodes);
      var rootBone := RootBone(skin, inp.nodes);
      if poses.Err? then (s, Fail(poses.error))
      else if bones.Err? then (s, Fail(bones.error))
      else if rootBone.Err? then (s, Fail(rootBone.error))
      else SkinNodes(inp, SkinTargetsOrEmpty(inp.skinToNodes, skinIndex), 0, poses.value, bones.value, rootBone.value, s)
  }

  /** The loop of `LoadSkins` from skin `i` on: each skin, then its report. */
  function SkinSteps(inp: DeformInputs, i: nat, s: DeformState): (DeformState, Outcome<ImportError>)
    decreases |inp.root.skins| - i
  {
    if i >= |inp.root.skins| then (s, Pass)
    else
      var r := LoadSkinSpec(inp, i, s);
      if r.1.Fail? then r
      else SkinSteps(inp, i + 1, r.0.(reports := r.0.reports + [Progress(SkinStep, i + 1, |inp.root.skins|)]))
  }

  /** `LoadSkins`: nothing without skins; else a start report, then each skin and its report. */
  function LoadSkinsSpec(inp: DeformInputs, s: DeformState): (DeformState, Outcome<ImportError>) {
    var n := |inp.root.skins|;
    if n == 0 then (s, Pass)
    else SkinSteps(inp, 0, s.(reports := s.reports + [Progress(SkinStep, 0, n)]))
  }

  // Skins: properties

  /** What the skin step may do to the state: skin data on meshes, renderer swaps on objects, errors appended. */
  ghost predicate SkinKeeps(s: DeformState, r: DeformState) {
    SkinDataOnly(s.meshes, r.meshes) && RenderersSwapped(s.objects, r.objects) && s.errorLog <= r.errorLog
  }

  lemma SkinKeepsTrans(a: DeformState, b: DeformState, c: DeformState)
    requires SkinKeeps(a, b) && SkinKeeps(b, c)
    ensures SkinKeeps(a, c)
  {
    SkinDataOnlyTrans(a.meshes, b.meshes, c.meshes);
    RenderersSwappedTrans(a.objects, b.objects, c.objects);
  }

  lemma SkinPrimitiveKeeps(inp: DeformInputs, nodeIndex: nat, meshIndex: nat, i: nat, bindposes: seq<Matrix>,
                           bones: seq<ObjectId>, rootBone: Option<ObjectId>, s: DeformState)
    requires meshIndex < |inp.primitives| && i < |inp.primitives[meshIndex]|
    ensures var r := SkinPrimitive(inp, nodeIndex, meshIndex, i, bindposes, bones, rootBone, s);
      SkinKeeps(s, r.0) && r.0.reports == s.reports
  {
  }

  lemma {:induction false} SkinPrimitivesKeep(inp: DeformInputs, nodeIndex: nat, meshIndex: nat, i: nat, bindposes: seq<Matrix>,
                                              bones: seq<ObjectId>, rootBone: Option<ObjectId>, s: DeformState)
    requires meshIndex < |inp.primitives|
    ensures var r := SkinPrimitives(inp, nodeIndex, meshIndex, i, bindposes, bones, rootBone, s);
      SkinKeeps(s, r.0) && r.0.reports == s.reports
    decreases |inp.primitives[meshIndex]| - i
  {
    if i < |inp.primitives[meshIndex]| {
      var r := SkinPrimitive(inp, nodeIndex, meshIndex, i, bindposes, bones, rootBone, s);
      SkinPrimitiveKeeps(inp, nodeIndex, meshIndex, i, bindposes, bones, rootBone, s);
      if r.1.Pass? {
        SkinPrimitivesKeep(inp, nodeIndex, meshIndex, i + 1, bindposes, bones, rootBone, r.0);
        SkinKeepsTrans(s, r.0, SkinPrimitives(inp, nodeIndex, meshIndex, i + 1, bindposes, bones, rootBone, r.0).0);
      }
    }
  }

  lemma {:induction false} SkinNodesKeep(inp: DeformInputs, targets: seq<nat>, j: nat, bindposes: seq<Matrix>,
                                         bones: seq<ObjectId>, rootBone: Option<ObjectId>, s: DeformState)
    ensures var r := SkinNodes(inp, targets, j, bindposes, bones, rootBone, s);
      SkinKeeps(s, r.0) && r.0.reports == s.reports
    decreases |targets| - j
  {
    if j < |targets| {
      var k := targets[j];
      if k < |inp.root.nodes| {
        if inp.root.nodes[k].mesh.None? {
          SkinNodesKeep(inp, targets, j + 1, bindposes, bones, rootBone, s);
        } else if inp.root.nodes[k].mesh.value < |inp.primitives| {
          var meshIndex := inp.root.nodes[k].mesh.value;
          var r := SkinPrimitives(inp, k, meshIndex, 0, bindposes, bones, rootBone, s);
          SkinPrimitivesKeep(inp, k, meshIndex, 0, bindposes, bones, rootBone, s);
          if r.1.Pass? {
            SkinNodesKeep(inp, targets, j + 1, bindposes, bones, rootBone, r.0);
            SkinKeepsTrans(s, r.0, SkinNodes(inp, targets, j + 1, bindposes, bones, rootBone, r.0).0);
          }
        }
      }
    }
  }

  lemma LoadSkinKeeps(inp: DeformInputs, skinIndex: nat, s: DeformState)
    ensures var r := LoadSkinSpec(inp, skinIndex, s).0;
      SkinKeeps(s, r) && r.reports == s.reports
  {
    var valid := IsValidSkin(inp.root.skins, skinIndex);
    if valid.Ok? && valid.value {
      var skin := inp.root.skins[skinIndex];
      var poses := BindPoses(inp, skin.inverseBindMatrices.value);
      var bones := GetBones(skin.joints, inp.nodes);
      var rootBone := RootBone(skin, inp.nodes);
      if poses.Ok? && bones.Ok? && rootBone.Ok? {
        SkinNodesKeep(inp, SkinTargetsOrEmpty(inp.skinToNodes, skinIndex), 0, poses.value, bones.value, rootBone.value, s);
      }
    }
  }

  lemma {:induction false} SkinStepsKeep(inp: DeformInputs, i: nat, s: DeformState, base: seq<Progress>)
    requires i <= |inp.root.skins| && s.reports == base + Counted(SkinStep, i, |inp.root.skins|)
    ensures var r := SkinSteps(inp, i, s);
      SkinKeeps(s, r.0) &&
      (r.1.Pass? ==> r.0.reports == base + Counted(SkinStep, |inp.root.skins|, |inp.root.skins|)) &&
      (r.1.Fail? ==> exists d :: i <= d < |inp.root.skins| && r.0.reports == base + Counted(SkinStep, d, |inp.root.skins|))
    decreases |inp.root.skins| - i
  {
    var n := |inp.root.skins|;
    if i < n {
      var r := LoadSkinSpec(inp, i, s);
      LoadSkinKeeps(inp, i, s);
      if r.1.Pass? {
        var s1 := r.0.(reports := r.0.reports + [Progress(SkinStep, i + 1, n)]);
        CountedStep(SkinStep, i, n);
        SkinStepsKeep(inp, i + 1, s1, base);
        SkinKeepsTrans(s, s1, SkinSteps(inp, i + 1, s1).0);
      }
    }
  }

  /**
   * The skin step only writes skin data to meshes, swaps renderers and
   * appends errors; its reports are the phase's, complete exactly when it
   * succeeds.
   */
  lemma LoadSkinsKeeps(inp: DeformInputs, s: DeformState)
    ensures var r := LoadSkinsSpec(inp, s);
      var n := |inp.root.skins|;
      SkinKeeps(s, r.0) &&
      (r.1.Pass? ==> r.0.reports == s.reports + PhaseReports(SkinStep, n, n)) &&
      (r.1.Fail? ==> exists d :: 0 <= d < n && r.0.reports == s.reports + PhaseReports(SkinStep, d, n))
  {
    var n := |inp.root.skins|;
    if n > 0 {
      var base := s.reports + [Progress(SkinStep, 0, n)];
      SkinStepsKeep(inp, 0, s.(reports := base), base);
      var r := LoadSkinsSpec(inp, s);
      if r.1.Fail? {
        var d :| 0 <= d < n && r.0.reports == base + Counted(SkinStep, d, n);
        assert r.0.reports == s.reports + PhaseReports(SkinStep, d, n);
      }
    }
  }

  /** An object skinned with `bones` and `rootBone`: a `SkinnedMeshRenderer` and no `MeshRenderer`. */
  ghost predicate SkinnedWith(s: DeformState, o: ObjectId, bones: seq<ObjectId>, rootBone: Option<ObjectId>) {
    o in s.objects && SkinnedMeshRenderer in s.objects[o].components && MeshRenderer !in s.objects[o].components &&
    s.objects[o].bones == bones && s.objects[o].rootBone == rootBone
  }

  /** The primitive objects of node `k` from primitive `i` on, as `SkinPrimitives` reaches them. */
  ghost predicate NodeSkinned(inp: DeformInputs, k: nat, meshIndex: nat, i: nat, bones: seq<ObjectId>,
                              rootBone: Option<ObjectId>, s: DeformState)
    requires meshIndex < |inp.primitives|
  {
    forall q :: i <= q < |inp.primitives[meshIndex]| ==> PrimitiveSkinned(inp, k, q, bones, rootBone, s)
  }

  /** Primitive object `q` of node `k` exists in the cache and carries the skin. */
  ghost predicate PrimitiveSkinned(inp: DeformInputs, k: nat, q: nat, bones: seq<ObjectId>, rootBone: Option<ObjectId>, s: DeformState) {
    k in inp.nodeToMeshPrimitives && q < |inp.nodeToMeshPrimitives[k]| &&
    SkinnedWith(s, inp.nodeToMeshPrimitives[k][q], bones, rootBone)
  }

  lemma NodeSkinnedAt(inp: DeformInputs, k: nat, meshIndex: nat, i: nat, bones: seq<ObjectId>,
                      rootBone: Option<ObjectId>, s: DeformState, q: nat)
    requires meshIndex < |inp.primitives| && NodeSkinned(inp, k, meshIndex, i, bones, rootBone, s)
    requires i <= q < |inp.primitives[meshIndex]|
    ensures PrimitiveSkinned(inp, k, q, bones, rootBone, s)
  {
  }

  /** Applying the same skin again keeps an object skinned with it. */
  lemma SkinPrimitiveKeepsSkinned(inp: DeformInputs, nodeIndex: nat, meshIndex: nat, i: nat, bindposes: seq<Matrix>,
                                  bones: seq<ObjectId>, rootBone: Option<ObjectId>, s: DeformState, o: ObjectId)
    requires meshIndex < |inp.primitives| && i < |inp.primitives[meshIndex]| && SkinnedWith(s, o, bones, rootBone)
    ensures SkinnedWith(SkinPrimitive(inp, nodeIndex, meshIndex, i, bindposes, bones, rootBone, s).0, o, bones, rootBone)
  {
  }

  lemma {:induction false} SkinPrimitivesKeepSkinned(inp: DeformInputs, nodeIndex: nat, meshIndex: nat, i: nat,
                                                     bindposes: seq<Matrix>, bones: seq<ObjectId>, rootBone: Option<ObjectId>,
                                                     s: DeformState, o: ObjectId)
    requires meshIndex < |inp.primitives| && SkinnedWith(s, o, bones, rootBone)
    ensures SkinnedWith(SkinPrimitives(inp, nodeIndex, meshIndex, i, bindposes, bones, rootBone, s).0, o, bones, rootBone)
    decreases |inp.primitives[meshIndex]| - i
  {
    if i < |inp.primitives[meshIndex]| {
      var r := SkinPrimitive(inp, nodeIndex, meshIndex, i, bindposes, bones, rootBone, s);
      SkinPrimitiveKeepsSkinned(inp, nodeIndex, meshIndex, i, bindposes, bones, rootBone, s, o);
      if r.1.Pass? {
        SkinPrimitivesKeepSkinned(inp, nodeIndex, meshIndex, i + 1, bindposes, bones, rootBone, r.0, o);
      }
    }
  }

  /** When a node's loop succeeds, every primitive object it reached carries the skin. */
  lemma {:induction false} SkinPrimitivesSkin(inp: DeformInputs, k: nat, meshIndex: nat, i: nat, bindposes: seq<Matrix>,
                                              bones: seq<ObjectId>, rootBone: Option<ObjectId>, s: DeformState)
    requires meshIndex < |inp.primitives| && i < |inp.primitives[meshIndex]|
    requires SkinPrimitives(inp, k, meshIndex, i, bindposes, bones, rootBone, s).1.Pass?
    ensures NodeSkinned(inp, k, meshIndex, i, bones, rootBone, SkinPrimitives(inp, k, meshIndex, i, bindposes, bones, rootBone, s).0)
    decreases |inp.primitives[meshIndex]| - i
  {
    var r := SkinPrimitive(inp, k, meshIndex, i, bindposes, bones, rootBone, s);
    assert r.1.Pass?;
    var list := inp.nodeToMeshPrimitives[k];
    assert i < |list|;
    var o := list[i];
    assert SkinnedWith(r.0, o, bones, rootBone);
    var t := SkinPrimitives(inp, k, meshIndex, i + 1, bindposes, bones, rootBone, r.0).0;
    assert SkinPrimitives(inp, k, meshIndex, i, bindposes, bones, rootBone, s).0 == t;
    SkinPrimitivesKeepSkinned(inp, k, meshIndex, i + 1, bindposes, bones, rootBone, r.0, o);
    if i + 1 < |inp.primitives[meshIndex]| {
      SkinPrimitivesSkin(inp, k, meshIndex, i + 1, bindposes, bones, rootBone, r.0);
      assert NodeSkinned(inp, k, meshIndex, i + 1, bones, rootBone, t);
      forall q | i <= q < |inp.primitives[meshIndex]|
        ensures PrimitiveSkinned(inp, k, q, bones, rootBone, t)
      {
        if q == i {
          assert SkinnedWith(t, o, bones, rootBone);
        } else {
          NodeSkinnedAt(inp, k, meshIndex, i + 1, bones, rootBone, t, q);
        }
      }
    }
  }

  /** Later nodes of the same skin keep an object skinned with it. */
  lemma {:induction false} SkinNodesKeepSkinned(inp: DeformInputs, targets: seq<nat>, j: nat, bindposes: seq<Matrix>,
                                                bones: seq<ObjectId>, rootBone: Option<ObjectId>, s: DeformState, o: ObjectId)
    requires SkinnedWith(s, o, bones, rootBone)
    ensures SkinnedWith(SkinNodes(inp, targets, j, bindposes, bones, rootBone, s).0, o, bones, rootBone)
    decreases |targets| - j
  {
    if j < |targets| {
      var k := targets[j];
      if k < |inp.root.nodes| {
        if inp.root.nodes[k].mesh.None? {
          SkinNodesKeepSkinned(inp, targets, j + 1, bindposes, bones, rootBone, s, o);
        } else if inp.root.nodes[k].mesh.value < |inp.primitives| {
          var meshIndex := inp.root.nodes[k].mesh.value;
          var r := SkinPrimitives(inp, k, meshIndex, 0, bindposes, bones, rootBone, s);
          SkinPrimitivesKeepSkinned(inp, k, meshIndex, 0, bindposes, bones, rootBone, s, o);
          if r.1.Pass? {
            SkinNodesKeepSkinned(inp, targets, j + 1, bindposes, bones, rootBone, r.0, o);
          }
        }
      }
    }
  }

  lemma SkinNodesKeepNode(inp: DeformInputs, targets: seq<nat>, j: nat, bindposes: seq<Matrix>,
                          bones: seq<ObjectId>, rootBone: Option<ObjectId>, s: DeformState, k: nat, meshIndex: nat)
    requires meshIndex < |inp.primitives| && NodeSkinned(inp, k, meshIndex, 0, bones, rootBone, s)
    ensures NodeSkinned(inp, k, meshIndex, 0, bones, rootBone, SkinNodes(inp, targets, j, bindposes, bones, rootBone, s).0)
  {
    var t := SkinNodes(inp, targets, j, bindposes, bones, rootBone, s).0;
    forall q | 0 <= q < |inp.primitives[meshIndex]|
      ensures PrimitiveSkinned(inp, k, q, bones, rootBone, t)
    {
      NodeSkinnedAt(inp, k, meshIndex, 0, bones, rootBone, s, q);
      SkinNodesKeepSkinned(inp, targets, j, bindposes, bones, rootBone, s, inp.nodeToMeshPrimitives[k][q]);
    }
  }

  /** Node `k` is a node of the document and, when it has a mesh, every primitive object of it carries the skin. */
  ghost predicate NodeCovered(inp: DeformInputs, k: nat, bones: seq<ObjectId>, rootBone: Option<ObjectId>, s: DeformState) {
    k < |inp.root.nodes| &&
    (inp.root.nodes[k].mesh.Some? ==>
      inp.root.nodes[k].mesh.value < |inp.primitives| &&
      NodeSkinned(inp, k, inp.root.nodes[k].mesh.value, 0, bones, rootBone, s))
  }

  /** When the loop over a skin's nodes succeeds, every node from entry `j` on is covered. */
  lemma {:induction false} SkinNodesSkin(inp: DeformInputs, targets: seq<nat>, j: nat, bindposes: seq<Matrix>,
                                         bones: seq<ObjectId>, rootBone: Option<ObjectId>, s: DeformState)
    requires SkinNodes(inp, targets, j, bindposes, bones, rootBone, s).1.Pass?
    ensures forall j' :: j <= j' < |targets| ==>
      NodeCovered(inp, targets[j'], bones, rootBone, SkinNodes(inp, targets, j, bindposes, bones, rootBone, s).0)
    decreases |targets| - j
  {
    if j < |targets| {
      var k := targets[j];
      var t := SkinNodes(inp, targets, j, bindposes, bones, rootBone, s).0;
      if inp.root.nodes[k].mesh.None? {
        SkinNodesSkin(inp, targets, j + 1, bindposes, bones, rootBone, s);
      } else {
        var meshIndex := inp.root.nodes[k].mesh.value;
        var r := SkinPrimitives(inp, k, meshIndex, 0, bindposes, bones, rootBone, s);
        if |inp.primitives[meshIndex]| > 0 {
          SkinPrimitivesSkin(inp, k, meshIndex, 0, bindposes, bones, rootBone, s);
        }
        SkinNodesKeepNode(inp, targets, j + 1, bindposes, bones, rootBone, r.0, k, meshIndex);
        SkinNodesSkin(inp, targets, j + 1, bindposes, bones, rootBone, r.0);
        assert NodeCovered(inp, k, bones, rootBone, t);
      }
    }
  }

  /**
   * A valid skin whose step succeeds has been applied: its bones and root
   * bone were found, and every primitive object of every node that uses
   * it has a `SkinnedMeshRenderer` with those bones and that root bone.
   */
  lemma LoadSkinApplies(inp: DeformInputs, skinIndex: nat, s: DeformState)
    requires IsValidSkin(inp.root.skins, skinIndex) == Ok(true)
    requires LoadSkinSpec(inp, skinIndex, s).1.Pass?
    ensures var skin := inp.root.skins[skinIndex];
      var bones := GetBones(skin.joints, inp.nodes);
      var rootBone := RootBone(skin, inp.nodes);
      bones.Ok? && rootBone.Ok? &&
      forall k :: k in SkinTargetsOrEmpty(inp.skinToNodes, skinIndex) ==>
        NodeCovered(inp, k, bones.value, rootBone.value, LoadSkinSpec(inp, skinIndex, s).0)
  {
    var skin := inp.root.skins[skinIndex];
    var poses := BindPoses(inp, skin.inverseBindMatrices.value);
    var bones := GetBones(skin.joints, inp.nodes);
    var rootBone := RootBone(skin, inp.nodes);
    var targets := SkinTargetsOrEmpty(inp.skinToNodes, skinIndex);
    SkinNodesSkin(inp, targets, 0, poses.value, bones.value, rootBone.value, s);
  }

  /** With the corrected lookup, a valid skin that no node uses changes nothing, and fails only on its own bad references. */
  lemma UnusedSkinSkipped(inp: DeformInputs, skinIndex: nat, s: DeformState)
    requires IsValidSkin(inp.root.skins, skinIndex) == Ok(true) && skinIndex !in inp.skinToNodes
    ensures var skin := inp.root.skins[skinIndex];
      var r := LoadSkinSpec(inp, skinIndex, s);
      r.0 == s &&
      (r.1.Pass? <==> BindPoses(inp, skin.inverseBindMatrices.value).Ok? && GetBones(skin.joints, inp.nodes).Ok? &&
                      RootBone(skin, inp.nodes).Ok?)
  {
  }
}
