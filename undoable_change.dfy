/**
 * `UndoableChange`: a pair of snapshot lists. Undo applies every "before"
 * snapshot and Redo every "after" snapshot, in list order; an exception
 * in one `Apply` ends the loop.
 */
module UndoableChanges {
  import opened Wrappers
  import opened Engine
  import opened ObjectStates

  datatype UndoableChange = UndoableChange(before: seq<ObjectState>, after: seq<ObjectState>)

  /** Some snapshot in `states` targets `id`. */
  predicate Targets(states: seq<ObjectState>, id: ObjectId) {
    exists i :: 0 <= i < |states| && states[i].target == id
  }

  /** Every snapshot's target exists and has a Renderer. */
  predicate AllApplicable(objects: map<ObjectId, GameObject>, states: seq<ObjectState>) {
    forall i :: 0 <= i < |states| ==> states[i].target in objects && HasRenderer(objects[states[i].target])
  }

  /** Applying `states` in order, stopping at the first failure. */
  function ApplyAll(objects: map<ObjectId, GameObject>, states: seq<ObjectState>): (r: (map<ObjectId, GameObject>, Outcome<UnityError>))
    ensures r.0.Keys == objects.Keys
    decreases |states|
  {
    if |states| == 0 then (objects, Pass)
    else
      var prev := ApplyAll(objects, states[..|states| - 1]);
      if prev.1.Fail? then prev else ApplyState(prev.0, states[|states| - 1])
  }

  /** Applying snapshots changes only the captured values of an object. */
  lemma {:induction false} ApplyAllUncaptured(objects: map<ObjectId, GameObject>, states: seq<ObjectState>, id: ObjectId)
    requires id in objects
    ensures SameUncaptured(objects[id], ApplyAll(objects, states).0[id])
    decreases |states|
  {
    if |states| > 0 {
      var prev := ApplyAll(objects, states[..|states| - 1]);
      ApplyAllUncaptured(objects, states[..|states| - 1], id);
      if prev.1.Pass? {
        var r := ApplyState(prev.0, states[|states| - 1]);
        assert SameUncaptured(prev.0[id], r.0[id]);
      }
    }
  }

  /**
   * The model keeps an object's world position in a field of its own,
   * which snapshots neither capture nor write; in Unity it follows from the
   * local transforms of the object and its ancestors.
   */
  lemma {:induction false} ApplyAllKeepsPositionField(objects: map<ObjectId, GameObject>, states: seq<ObjectState>, id: ObjectId)
    requires id in objects
    ensures ApplyAll(objects, states).0[id].position == objects[id].position
    decreases |states|
  {
    if |states| > 0 {
      ApplyAllKeepsPositionField(objects, states[..|states| - 1], id);
    }
  }

  /** Objects no snapshot targets are untouched. */
  lemma {:induction false} UntargetedUnchanged(objects: map<ObjectId, GameObject>, states: seq<ObjectState>, id: ObjectId)
    requires id in objects && !Targets(states, id)
    ensures ApplyAll(objects, states).0[id] == objects[id]
    decreases |states|
  {
    if |states| > 0 {
      var init := states[..|states| - 1];
      assert !Targets(init, id) by {
        forall i | 0 <= i < |init| ensures init[i].target != id {
          assert init[i] == states[i];
        }
      }
      UntargetedUnchanged(objects, init, id);
    }
  }

  /** The whole list applies without an exception exactly when every target exists and has a Renderer. */
  lemma {:induction false} PassIffApplicable(objects: map<ObjectId, GameObject>, states: seq<ObjectState>)
    ensures ApplyAll(objects, states).1.Pass? <==> AllApplicable(objects, states)
    decreases |states|
  {
    if |states| > 0 {
      var n := |states|;
      var init := states[..n - 1];
      PassIffApplicable(objects, init);
      var prev := ApplyAll(objects, init);
      assert AllApplicable(objects, states) <==> AllApplicable(objects, init) && states[n - 1].target in objects && HasRenderer(objects[states[n - 1].target]) by {
        assert forall i :: 0 <= i < n - 1 ==> init[i] == states[i];
      }
      if prev.1.Pass? {
        var t := states[n - 1].target;
        if t in objects {
          ApplyAllUncaptured(objects, init, t);
        }
      }
    }
  }

  /** Once a prefix fails, the rest of the list is not applied. */
  lemma {:induction false} FailureStops(objects: map<ObjectId, GameObject>, states: seq<ObjectState>, k: nat)
    requires k <= |states|
    requires ApplyAll(objects, states[..k]).1.Fail?
    ensures ApplyAll(objects, states) == ApplyAll(objects, states[..k])
    decreases |states| - k
  {
    if k < |states| {
      assert states[..k + 1][..k] == states[..k];
      FailureStops(objects, states, k + 1);
    } else {
      assert states[..k] == states;
    }
  }

  /** When several snapshots target one object, the last of them decides its captured values. */
  lemma {:induction false} LastSnapshotWins(objects: map<ObjectId, GameObject>, states: seq<ObjectState>, j: nat)
    requires j < |states| && states[j].target in objects && ApplyAll(objects, states).1.Pass?
    requires forall i :: j < i < |states| ==> states[i].target != states[j].target
    ensures Matches(ApplyAll(objects, states).0[states[j].target], states[j])
    decreases |states|
  {
    var n := |states|;
    var init := states[..n - 1];
    var prev := ApplyAll(objects, init);
    assert prev.1.Pass?;
    var t := states[j].target;
    var r := ApplyState(prev.0, states[n - 1]);
    assert ApplyAll(objects, states) == r;
    if j < n - 1 {
      assert init[j] == states[j];
      LastSnapshotWins(objects, init, j);
      assert t in prev.0 && t != states[n - 1].target;
      assert r.0[t] == prev.0[t];
    } else {
      assert Matches(r.0[t], states[j]);
    }
  }

  /** If every snapshot of `id` equals `s`, the object ends up matching `s`. */
  lemma {:induction false} AgreeingSnapshotsWin(objects: map<ObjectId, GameObject>, states: seq<ObjectState>, id: ObjectId, s: ObjectState)
    requires id in objects && ApplyAll(objects, states).1.Pass? && Targets(states, id)
    requires forall i :: 0 <= i < |states| && states[i].target == id ==> states[i] == s
    ensures Matches(ApplyAll(objects, states).0[id], s)
    decreases |states|
  {
    var n := |states|;
    var init := states[..n - 1];
    if states[n - 1].target != id {
      var i :| 0 <= i < n && states[i].target == id;
      assert init[i] == states[i];
      AgreeingSnapshotsWin(objects, init, id, s);
    }
  }

  /** `foreach (var state in states) state.Apply();` */
  method ApplyStates(world: World, states: seq<ObjectState>) returns (outcome: Outcome<UnityError>)
    requires world.Valid()
    modifies world
    ensures world.Valid() && world.OnlyObjectsChanged()
    ensures (world.objects, outcome) == ApplyAll(old(world.objects), states)
  {
    var i := 0;
    while i < |states|
      invariant 0 <= i <= |states|
      invariant world.Valid() && world.OnlyObjectsChanged()
      invariant (world.objects, Pass) == ApplyAll(old(world.objects), states[..i])
    {
      assert states[..i + 1][..i] == states[..i];
      outcome := Apply(world, states[i]);
      if outcome.Fail? {
        FailureStops(old(world.objects), states, i + 1);
        return;
      }
      i := i + 1;
    }
    assert states[..i] == states;
    outcome := Pass;
  }

  /** `UndoableChange.Undo`: applies the "before" snapshots. */
  method Undo(change: UndoableChange, world: World) returns (outcome: Outcome<UnityError>)
    requires world.Valid()
    modifies world
    ensures world.Valid() && world.OnlyObjectsChanged()
    ensures (world.objects, outcome) == ApplyAll(old(world.objects), change.before)
  {
    outcome := ApplyStates(world, change.before);
  }

  /** `UndoableChange.Redo`: applies the "after" snapshots. */
  method Redo(change: UndoableChange, world: World) returns (outcome: Outcome<UnityError>)
    requires world.Valid()
    modifies world
    ensures world.Valid() && world.OnlyObjectsChanged()
    ensures (world.objects, outcome) == ApplyAll(old(world.objects), change.after)
  {
    outcome := ApplyStates(world, change.after);
  }

  /** The "after" list was captured from `objects` itself. */
  predicate CapturedFrom(objects: map<ObjectId, GameObject>, states: seq<ObjectState>) {
    forall i :: 0 <= i < |states| ==> Capture(objects, states[i].target) == Ok(states[i])
  }

  /** One object of `RedoAfterUndoRestores`. */
  lemma RestoredObject(objects: map<ObjectId, GameObject>, change: UndoableChange, id: ObjectId)
    requires id in objects
    requires CapturedFrom(objects, change.after)
    requires forall i :: 0 <= i < |change.before| ==> Targets(change.after, change.before[i].target)
    requires ApplyAll(objects, change.before).1.Pass?
    requires ApplyAll(ApplyAll(objects, change.before).0, change.after).1.Pass?
    ensures ApplyAll(ApplyAll(objects, change.before).0, change.after).0[id] == objects[id]
  {
    var mid := ApplyAll(objects, change.before).0;
    var fin := ApplyAll(mid, change.after).0;
    if Targets(change.after, id) {
      var k :| 0 <= k < |change.after| && change.after[k].target == id;
      var s := change.after[k];
      forall i | 0 <= i < |change.after| && change.after[i].target == id
        ensures change.after[i] == s
      {
        assert Capture(objects, id) == Ok(change.after[i]);
      }
      AgreeingSnapshotsWin(mid, change.after, id, s);
      assert Capture(objects, id) == Ok(s);
      ApplyAllUncaptured(objects, change.before, id);
      ApplyAllUncaptured(mid, change.after, id);
      ApplyAllKeepsPositionField(objects, change.before, id);
      ApplyAllKeepsPositionField(mid, change.after, id);
    } else {
      assert !Targets(change.before, id);
      UntargetedUnchanged(objects, change.before, id);
      UntargetedUnchanged(mid, change.after, id);
    }
  }

  /** The "after" snapshots still apply once the "before" snapshots have been applied. */
  lemma RedoApplicable(objects: map<ObjectId, GameObject>, change: UndoableChange)
    requires CapturedFrom(objects, change.after)
    requires ApplyAll(objects, change.before).1.Pass?
    ensures ApplyAll(ApplyAll(objects, change.before).0, change.after).1.Pass?
  {
    var mid := ApplyAll(objects, change.before).0;
    PassIffApplicable(mid, change.after);
    forall i | 0 <= i < |change.after|
      ensures change.after[i].target in mid && HasRenderer(mid[change.after[i].target])
    {
      var t := change.after[i].target;
      assert Capture(objects, t).Ok?;
      ApplyAllUncaptured(objects, change.before, t);
    }
  }

  /**
   * A change whose "after" snapshots were captured from a world and cover
   * every object its "before" snapshots touch: undoing it and redoing it
   * gives that world back.
   */
  lemma RedoAfterUndoRestores(objects: map<ObjectId, GameObject>, change: UndoableChange)
    requires CapturedFrom(objects, change.after)
    requires forall i :: 0 <= i < |change.before| ==> Targets(change.after, change.before[i].target)
    requires ApplyAll(objects, change.before).1.Pass?
    ensures ApplyAll(ApplyAll(objects, change.before).0, change.after) == (objects, Pass)
  {
    var mid := ApplyAll(objects, change.before).0;
    var fin := ApplyAll(mid, change.after);
    RedoApplicable(objects, change);
    forall id | id in objects
      ensures fin.0[id] == objects[id]
    {
      RestoredObject(objects, change, id);
    }
    SameEntries(fin.0, objects);
  }

  /** Two maps with the same keys and the same value at each key are equal. */
  lemma SameEntries(a: map<ObjectId, GameObject>, b: map<ObjectId, GameObject>)
    requires a.Keys == b.Keys
    requires forall id :: id in b ==> a[id] == b[id]
    ensures a == b
  {
    assert forall id :: id in a <==> id in b;
    assert forall id :: id in a ==> a[id] == b[id];
  }
}
