/**
 * `ObjectState`: a snapshot of one GameObject's local transform, renderer
 * material and active flag, and `Apply`, which writes the snapshot back.
 */
module ObjectStates {
  import opened Wrappers
  import opened UnityMath
  import opened Engine

  datatype ObjectState = ObjectState(
    target: ObjectId,
    localPosition: Vec3,
    localRotation: Quat,
    localScale: Vec3,
    material: Option<Material>,
    active: bool)

  /** The five captured values of `g` are those of `s`. */
  predicate Matches(g: GameObject, s: ObjectState) {
    g.local == Trs(s.localPosition, s.localRotation, s.localScale) &&
    g.material == s.material && g.activeSelf == s.active
  }

  /**
   * `g` and `h` agree on what a snapshot does not capture and writing it
   * back cannot change. The world position is left out: Unity derives it
   * from the local transform and the parent chain, so writing the local
   * transform moves it.
   */
  predicate SameUncaptured(g: GameObject, h: GameObject) {
    g.name == h.name && g.parent == h.parent &&
    g.components == h.components && g.sharedMesh == h.sharedMesh &&
    g.bones == h.bones && g.rootBone == h.rootBone
  }

  /**
   * The constructor `ObjectState(obj)`. A destroyed object fails on its
   * transform; an object without a Renderer fails on `.material`.
   */
  function Capture(objects: map<ObjectId, GameObject>, id: ObjectId): (r: Result<ObjectState, UnityError>)
    ensures r.Ok? <==> id in objects && HasRenderer(objects[id])
    ensures id !in objects ==> r == Err(MissingReference)
    ensures id in objects && !HasRenderer(objects[id]) ==> r == Err(NullReference)
    ensures r.Ok? ==> r.value.target == id && Matches(objects[id], r.value)
  {
    if id !in objects then Err(MissingReference)
    else
      var g := objects[id];
      if !HasRenderer(g) then Err(NullReference)
      else Ok(ObjectState(id, g.local.position, g.local.rotation, g.local.scale, g.material, g.activeSelf))
  }

  /**
   * The effect of `Apply` on the objects: the transform is written first,
   * so an object without a Renderer keeps the new transform and then fails.
   */
  function ApplyState(objects: map<ObjectId, GameObject>, s: ObjectState): (r: (map<ObjectId, GameObject>, Outcome<UnityError>))
    ensures r.0.Keys == objects.Keys
    ensures forall id :: id in objects && id != s.target ==> r.0[id] == objects[id]
    ensures r.1.Pass? <==> s.target in objects && HasRenderer(objects[s.target])
    ensures r.1.Pass? ==> Matches(r.0[s.target], s)
    ensures s.target in objects ==>
      SameUncaptured(objects[s.target], r.0[s.target]) &&
      r.0[s.target].local == Trs(s.localPosition, s.localRotation, s.localScale)
    ensures s.target !in objects ==> r == (objects, Fail(MissingReference))
  {
    if s.target !in objects then (objects, Fail(MissingReference))
    else
      var g := objects[s.target];
      var moved := g.(local := Trs(s.localPosition, s.localRotation, s.localScale));
      if !HasRenderer(g) then (objects[s.target := moved], Fail(NullReference))
      else (objects[s.target := moved.(material := s.material, activeSelf := s.active)], Pass)
  }

  /** `ObjectState.Apply`, one property assignment at a time. */
  method Apply(world: World, s: ObjectState) returns (outcome: Outcome<UnityError>)
    requires world.Valid()
    modifies world
    ensures world.Valid() && world.OnlyObjectsChanged()
    ensures (world.objects, outcome) == ApplyState(old(world.objects), s)
  {
    if s.target !in world.objects {
      return Fail(MissingReference);
    }
    ghost var before := world.objects;
    var g := world.objects[s.target];
    ghost var moved := g.(local := Trs(s.localPosition, s.localRotation, s.localScale));
    world.SetObject(s.target, g.(local := g.local.(position := s.localPosition)));
    g := world.objects[s.target];
    world.SetObject(s.target, g.(local := g.local.(rotation := s.localRotation)));
    g := world.objects[s.target];
    world.SetObject(s.target, g.(local := g.local.(scale := s.localScale)));
    g := world.objects[s.target];
    assert world.objects == before[s.target := moved];
    if !HasRenderer(g) {
      return Fail(NullReference);
    }
    world.SetObject(s.target, g.(material := s.material));
    g := world.objects[s.target];
    world.SetObject(s.target, g.(activeSelf := s.active));
    assert world.objects == before[s.target := moved.(material := s.material, activeSelf := s.active)];
    outcome := Pass;
  }

  /** Capturing an object and applying the snapshot straight away changes nothing. */
  lemma CaptureThenApply(objects: map<ObjectId, GameObject>, id: ObjectId)
    requires Capture(objects, id).Ok?
    ensures ApplyState(objects, Capture(objects, id).value) == (objects, Pass)
  {
    var s := Capture(objects, id).value;
    var r := ApplyState(objects, s);
    assert r.0[id] == objects[id];
    assert forall k :: k in objects ==> r.0[k] == objects[k];
    assert r.0 == objects;
  }

  /** Applying a snapshot twice is the same as applying it once. */
  lemma ApplyIdempotent(objects: map<ObjectId, GameObject>, s: ObjectState)
    ensures ApplyState(ApplyState(objects, s).0, s) == ApplyState(objects, s)
  {
    var once := ApplyState(objects, s);
    if s.target in objects {
      var twice := ApplyState(once.0, s);
      assert twice.0[s.target] == once.0[s.target];
      assert forall k :: k in once.0 ==> twice.0[k] == once.0[k];
      assert twice.0 == once.0;
    }
  }

  /** After a successful apply, capturing the target gives back the snapshot. */
  lemma ApplyThenCapture(objects: map<ObjectId, GameObject>, s: ObjectState)
    requires ApplyState(objects, s).1.Pass?
    ensures Capture(ApplyState(objects, s).0, s.target) == Ok(s)
  {
  }
}
