/**
 * `DeleteCommand` of the runtime transform gizmo: "deleting" hides the
 * targets and undoing the delete shows them again.
 */
module DeleteCommands {
  import opened Wrappers
  import opened UnityMath
  import opened Engine

  /** `g` and `h` differ at most in their active flag. */
  predicate SameButActive(g: GameObject, h: GameObject) {
    g.name == h.name && g.parent == h.parent && g.local == h.local && g.position == h.position &&
    g.components == h.components && g.sharedMesh == h.sharedMesh && g.material == h.material &&
    g.bones == h.bones && g.rootBone == h.rootBone
  }

  /** `SetActive(active)` on each target in order; a null or destroyed target throws. */
  function SetActiveAll(objects: map<ObjectId, GameObject>, targets: seq<Option<ObjectId>>, active: bool)
    : (r: (map<ObjectId, GameObject>, Outcome<UnityError>))
    ensures r.0.Keys == objects.Keys
    decreases |targets|
  {
    if |targets| == 0 then (objects, Pass)
    else
      var prev := SetActiveAll(objects, targets[..|targets| - 1], active);
      var t := targets[|targets| - 1];
      if prev.1.Fail? then prev
      else if t.None? then (prev.0, Fail(NullReference))
      else if t.value !in prev.0 then (prev.0, Fail(MissingReference))
      else (prev.0[t.value := prev.0[t.value].(activeSelf := active)], Pass)
  }

  /** Every target is non-null and not destroyed. */
  predicate AllLive(objects: map<ObjectId, GameObject>, targets: seq<Option<ObjectId>>) {
    forall i :: 0 <= i < |targets| ==> targets[i].Some? && targets[i].value in objects
  }

  /** The loop completes exactly when every target is live. */
  lemma {:induction false} PassIffLive(objects: map<ObjectId, GameObject>, targets: seq<Option<ObjectId>>, active: bool)
    ensures SetActiveAll(objects, targets, active).1.Pass? <==> AllLive(objects, targets)
    decreases |targets|
  {
    if |targets| > 0 {
      var n := |targets|;
      var init := targets[..n - 1];
      PassIffLive(objects, init, active);
      assert forall i :: 0 <= i < n - 1 ==> init[i] == targets[i];
    }
  }

  /** After a completed loop every target has the new flag and every other object its old one. */
  lemma {:induction false} FlagsAfter(objects: map<ObjectId, GameObject>, targets: seq<Option<ObjectId>>, active: bool, id: ObjectId)
    requires id in objects && SetActiveAll(objects, targets, active).1.Pass?
    ensures SetActiveAll(objects, targets, active).0[id].activeSelf == (if Some(id) in targets then active else objects[id].activeSelf)
    decreases |targets|
  {
    if |targets| > 0 {
      var n := |targets|;
      var init := targets[..n - 1];
      FlagsAfter(objects, init, active, id);
      assert targets == init + [targets[n - 1]];
      assert Some(id) in targets <==> Some(id) in init || targets[n - 1] == Some(id);
    }
  }

  /** Nothing but active flags changes. */
  lemma {:induction false} OnlyFlagsChange(objects: map<ObjectId, GameObject>, targets: seq<Option<ObjectId>>, active: bool, id: ObjectId)
    requires id in objects
    ensures SameButActive(objects[id], SetActiveAll(objects, targets, active).0[id])
    decreases |targets|
  {
    if |targets| > 0 {
      OnlyFlagsChange(objects, targets[..|targets| - 1], active, id);
    }
  }

  /** One more iteration of the loop. */
  lemma Step(objects: map<ObjectId, GameObject>, targets: seq<Option<ObjectId>>, active: bool, i: nat)
    requires i < |targets|
    ensures
      var prev := SetActiveAll(objects, targets[..i], active);
      var t := targets[i];
      SetActiveAll(objects, targets[..i + 1], active) ==
        if prev.1.Fail? then prev
        else if t.None? then (prev.0, Fail(NullReference))
        else if t.value !in prev.0 then (prev.0, Fail(MissingReference))
        else (prev.0[t.value := prev.0[t.value].(activeSelf := active)], Pass)
  {
    assert targets[..i + 1][..i] == targets[..i];
  }

  /** A partly completed loop finishes as the whole loop does once it has thrown. */
  lemma {:induction false} SetActiveAllStops(objects: map<ObjectId, GameObject>, targets: seq<Option<ObjectId>>, active: bool, k: nat)
    requires k <= |targets| && SetActiveAll(objects, targets[..k], active).1.Fail?
    ensures SetActiveAll(objects, targets, active) == SetActiveAll(objects, targets[..k], active)
    decreases |targets| - k
  {
    if k < |targets| {
      assert targets[..k + 1][..k] == targets[..k];
      SetActiveAllStops(objects, targets, active, k + 1);
    } else {
      assert targets[..k] == targets;
    }
  }

  class DeleteCommand {
    const targets: seq<Option<ObjectId>>

    constructor (targets: seq<Option<ObjectId>>)
      ensures this.targets == targets
    {
      this.targets := targets;
    }

    /** Deactivates every target. */
    method Execute(world: World) returns (outcome: Outcome<UnityError>)
      requires world.Valid()
      modifies world
      ensures world.Valid() && world.OnlyObjectsChanged()
      ensures (world.objects, outcome) == SetActiveAll(old(world.objects), targets, false)
    {
      outcome := SetEach(world, targets, false);
    }

    /** Reactivates every target. */
    method UnExecute(world: World) returns (outcome: Outcome<UnityError>)
      requires world.Valid()
      modifies world
      ensures world.Valid() && world.OnlyObjectsChanged()
      ensures (world.objects, outcome) == SetActiveAll(old(world.objects), targets, true)
    {
      outcome := SetEach(world, targets, true);
    }
  }

  /** `foreach (GameObject g in targets) g.SetActive(active);` */
  method SetEach(world: World, targets: seq<Option<ObjectId>>, active: bool) returns (outcome: Outcome<UnityError>)
    requires world.Valid()
    modifies world
    ensures world.Valid() && world.OnlyObjectsChanged()
    ensures (world.objects, outcome) == SetActiveAll(old(world.objects), targets, active)
  {
    var i := 0;
    while i < |targets|
      invariant 0 <= i <= |targets|
      invariant world.Valid() && world.OnlyObjectsChanged()
      invariant (world.objects, Pass) == SetActiveAll(old(world.objects), targets[..i], active)
    {
      Step(old(world.objects), targets, active, i);
      var g := targets[i];
      if g.None? {
        SetActiveAllStops(old(world.objects), targets, active, i + 1);
        return Fail(NullReference);
      }
      if g.value !in world.objects {
        SetActiveAllStops(old(world.objects), targets, active, i + 1);
        return Fail(MissingReference);
      }
      world.SetObject(g.value, world.objects[g.value].(activeSelf := active));
      i := i + 1;
    }
    assert targets[..i] == targets;
    outcome := Pass;
  }

  /**
   * Executing and then unexecuting gives the objects back exactly when
   * every target was active to begin with: `UnExecute` does not restore
   * the flags `Execute` overwrote.
   */
  lemma RoundTripRestoresIff(objects: map<ObjectId, GameObject>, targets: seq<Option<ObjectId>>)
    requires AllLive(objects, targets)
    ensures SetActiveAll(SetActiveAll(objects, targets, false).0, targets, true).1.Pass?
    ensures SetActiveAll(SetActiveAll(objects, targets, false).0, targets, true).0 == objects
            <==> forall i :: 0 <= i < |targets| ==> objects[targets[i].value].activeSelf
  {
    var hidden := SetActiveAll(objects, targets, false).0;
    var shown := SetActiveAll(hidden, targets, true).0;
    PassIffLive(objects, targets, false);
    PassIffLive(hidden, targets, true);
    if forall i :: 0 <= i < |targets| ==> objects[targets[i].value].activeSelf {
      forall id | id in objects ensures shown[id] == objects[id] {
        RoundTripRestoresObject(objects, targets, id);
      }
      assert shown == objects;
    }
    if shown == objects {
      forall i | 0 <= i < |targets| ensures objects[targets[i].value].activeSelf {
        assert Some(targets[i].value) in targets;
        FlagsAfter(hidden, targets, true, targets[i].value);
      }
    }
  }

  /** One object after the round trip, when every target was active before. */
  lemma RoundTripRestoresObject(objects: map<ObjectId, GameObject>, targets: seq<Option<ObjectId>>, id: ObjectId)
    requires AllLive(objects, targets) && id in objects
    requires forall i :: 0 <= i < |targets| ==> objects[targets[i].value].activeSelf
    ensures SetActiveAll(objects, targets, false).1.Pass?
    ensures SetActiveAll(SetActiveAll(objects, targets, false).0, targets, true).1.Pass?
    ensures SetActiveAll(SetActiveAll(objects, targets, false).0, targets, true).0[id] == objects[id]
  {
    var hidden := SetActiveAll(objects, targets, false).0;
    PassIffLive(objects, targets, false);
    PassIffLive(hidden, targets, true);
    OnlyFlagsChange(objects, targets, false, id);
    OnlyFlagsChange(hidden, targets, true, id);
    FlagsAfter(objects, targets, false, id);
    FlagsAfter(hidden, targets, true, id);
    if Some(id) in targets {
      var i :| 0 <= i < |targets| && targets[i] == Some(id);
      assert objects[targets[i].value].activeSelf;
    }
  }

  /**
   * After executing and then unexecuting, every target is active; a target
   * that was hidden before therefore comes back visible and the objects
   * differ from the original ones.
   */
  lemma RoundTripShowsTargets(objects: map<ObjectId, GameObject>, targets: seq<Option<ObjectId>>, i: nat)
    requires AllLive(objects, targets) && i < |targets|
    ensures SetActiveAll(SetActiveAll(objects, targets, false).0, targets, true).0[targets[i].value].activeSelf
    ensures !objects[targets[i].value].activeSelf ==>
      SetActiveAll(SetActiveAll(objects, targets, false).0, targets, true).0 != objects
  {
    var hidden := SetActiveAll(objects, targets, false).0;
    PassIffLive(objects, targets, false);
    PassIffLive(hidden, targets, true);
    assert Some(targets[i].value) in targets;
    FlagsAfter(hidden, targets, true, targets[i].value);
  }
}
