/**
 * `UndoRedoSystem`: undo and redo stacks of `UndoableAction`s, each naming
 * an action type, an untyped target and boxed "from"/"to" values.
 */
module UndoRedoSystems {
  import opened Wrappers
  import opened UnityMath
  import opened Engine
  import opened TwoStacks

  datatype UndoableActionType = Enable | SetActive | Position

  /** The `UnityEngine.Object` an action targets. */
  datatype TargetRef = GameObjectRef(id: ObjectId) | TransformRef(id: ObjectId) | OtherObject | NullTarget

  /** A boxed `object` value. */
  datatype Boxed = BoolBox(b: bool) | VectorBox(v: Vec3) | OtherBox | NullBox

  datatype UndoableAction = UndoableAction(kind: UndoableActionType, target: TargetRef, from: Boxed, to: Boxed)

  /** `(bool)value`: unboxing null is a NullReference, any other type an InvalidCast. */
  function UnboxBool(value: Boxed): (r: Result<bool, UnityError>)
    ensures r.Ok? <==> value.BoolBox?
    ensures r.Ok? ==> r.value == value.b
  {
    match value
    case BoolBox(b) => Ok(b)
    case NullBox => Err(NullReference)
    case _ => Err(InvalidCast)
  }

  /** `(Vector3)value`. */
  function UnboxVector(value: Boxed): (r: Result<Vec3, UnityError>)
    ensures r.Ok? <==> value.VectorBox?
    ensures r.Ok? ==> r.value == value.v
  {
    match value
    case VectorBox(v) => Ok(v)
    case NullBox => Err(NullReference)
    case _ => Err(InvalidCast)
  }

  /**
   * The `switch` of `Undo` (with the "from" value) and `Redo` (with the
   * "to" value). The cast of the target is evaluated first, then the
   * unboxing of the value, then the call on the target.
   */
  function Write(objects: map<ObjectId, GameObject>, kind: UndoableActionType, target: TargetRef, value: Boxed)
    : (r: (map<ObjectId, GameObject>, Outcome<UnityError>))
    ensures r.0.Keys == objects.Keys
    ensures forall id :: id in objects && !(target.GameObjectRef? || target.TransformRef?) ==> r.0[id] == objects[id]
    ensures forall id :: id in objects && (target.GameObjectRef? || target.TransformRef?) && id != target.id ==> r.0[id] == objects[id]
    ensures r.1.Fail? ==> r.0 == objects
    ensures kind == Enable ==> r == (objects, Pass)
    ensures kind == SetActive ==>
      (r.1.Pass? <==> target.GameObjectRef? && value.BoolBox? && target.id in objects)
    ensures kind == Position ==>
      (r.1.Pass? <==> target.TransformRef? && value.VectorBox? && target.id in objects)
    ensures kind == SetActive && r.1.Pass? ==> r.0[target.id] == objects[target.id].(activeSelf := value.b)
    ensures kind == Position && r.1.Pass? ==> r.0[target.id] == objects[target.id].(position := value.v)
  {
    match kind
    case Enable => (objects, Pass)
    case SetActive =>
      if target.TransformRef? || target.OtherObject? then (objects, Fail(InvalidCast))
      else
        var b := UnboxBool(value);
        if b.Err? then (objects, Fail(b.error))
        else if target.NullTarget? then (objects, Fail(NullReference))
        else if target.id !in objects then (objects, Fail(MissingReference))
        else (objects[target.id := objects[target.id].(activeSelf := b.value)], Pass)
    case Position =>
      if target.GameObjectRef? || target.OtherObject? then (objects, Fail(InvalidCast))
      else
        var v := UnboxVector(value);
        if v.Err? then (objects, Fail(v.error))
        else if target.NullTarget? then (objects, Fail(NullReference))
        else if target.id !in objects then (objects, Fail(MissingReference))
        else (objects[target.id := objects[target.id].(position := v.value)], Pass)
  }

  /** The value an action of this kind would record for its target now, boxed. */
  function Current(objects: map<ObjectId, GameObject>, kind: UndoableActionType, target: TargetRef): Option<Boxed> {
    match kind
    case Enable => None
    case SetActive =>
      if target.GameObjectRef? && target.id in objects then Some(BoolBox(objects[target.id].activeSelf)) else None
    case Position =>
      if target.TransformRef? && target.id in objects then Some(VectorBox(objects[target.id].position)) else None
  }

  /** A successful write is read back. */
  lemma WriteThenRead(objects: map<ObjectId, GameObject>, kind: UndoableActionType, target: TargetRef, value: Boxed)
    requires kind != Enable && Write(objects, kind, target, value).1.Pass?
    ensures Current(Write(objects, kind, target, value).0, kind, target) == Some(value)
  {
  }

  /**
   * An action tracked with the target's current value as "from": after
   * its "to" value is written, undoing it restores the objects.
   */
  lemma UndoRestoresTracked(objects: map<ObjectId, GameObject>, a: UndoableAction)
    requires Current(objects, a.kind, a.target) == Some(a.from)
    requires Write(objects, a.kind, a.target, a.to).1.Pass?
    ensures Write(Write(objects, a.kind, a.target, a.to).0, a.kind, a.target, a.from) == (objects, Pass)
  {
    var changed := Write(objects, a.kind, a.target, a.to).0;
    var back := Write(changed, a.kind, a.target, a.from).0;
    assert back[a.target.id] == objects[a.target.id];
    assert back == objects;
  }

  /** When undo succeeds, redo succeeds too and leaves what writing "to" directly would. */
  lemma RedoAfterUndo(objects: map<ObjectId, GameObject>, a: UndoableAction)
    requires Write(objects, a.kind, a.target, a.from).1.Pass?
    requires a.kind != Enable ==> a.to.BoolBox? == a.from.BoolBox? && a.to.VectorBox? == a.from.VectorBox?
    ensures Write(Write(objects, a.kind, a.target, a.from).0, a.kind, a.target, a.to) == Write(objects, a.kind, a.target, a.to)
  {
    if a.kind != Enable {
      var undone := Write(objects, a.kind, a.target, a.from).0;
      var twice := Write(undone, a.kind, a.target, a.to).0;
      var once := Write(objects, a.kind, a.target, a.to).0;
      assert twice[a.target.id] == once[a.target.id];
      assert twice == once;
    }
  }

  class UndoRedoSystem {
    var availableUndos: seq<UndoableAction>
    var availableRedos: seq<UndoableAction>

    function State(): Stacks<UndoableAction>
      reads this
    {
      Stacks(availableUndos, availableRedos)
    }

    constructor ()
      ensures availableUndos == [] && availableRedos == []
    {
      availableUndos := [];
      availableRedos := [];
    }

    /** Clears the redo stack and pushes the new action. */
    method TrackChangeAction(kind: UndoableActionType, target: TargetRef, from: Boxed, to: Boxed)
      modifies this
      ensures State() == Track(old(State()), UndoableAction(kind, target, from, to))
    {
      availableRedos := [];
      availableUndos := availableUndos + [UndoableAction(kind, target, from, to)];
    }

    /** Pops the top redo action, writes its "to" value, and pushes it onto undo unless the write throws. */
    method Redo(world: World) returns (outcome: Outcome<UnityError>)
      requires world.Valid()
      modifies this, world
      ensures world.Valid() && world.OnlyObjectsChanged()
      ensures |old(availableRedos)| == 0 ==> outcome == Pass && world.objects == old(world.objects) && State() == old(State())
      ensures |old(availableRedos)| > 0 ==>
        var redo := old(availableRedos)[|old(availableRedos)| - 1];
        (world.objects, outcome) == Write(old(world.objects), redo.kind, redo.target, redo.to) &&
        State() == (if outcome.Pass? then RedoMove(old(State()))
                    else Stacks(old(availableUndos), old(availableRedos)[..|old(availableRedos)| - 1]))
    {
      if |availableRedos| == 0 {
        return Pass;
      }
      var redo := availableRedos[|availableRedos| - 1];
      availableRedos := availableRedos[..|availableRedos| - 1];
      outcome := Perform(world, redo.kind, redo.target, redo.to);
      if outcome.Fail? {
        return;
      }
      availableUndos := availableUndos + [redo];
    }

    /** Pops the top undo action, writes its "from" value, and pushes it onto redo unless the write throws. */
    method Undo(world: World) returns (outcome: Outcome<UnityError>)
      requires world.Valid()
      modifies this, world
      ensures world.Valid() && world.OnlyObjectsChanged()
      ensures |old(availableUndos)| == 0 ==> outcome == Pass && world.objects == old(world.objects) && State() == old(State())
      ensures |old(availableUndos)| > 0 ==>
        var undo := old(availableUndos)[|old(availableUndos)| - 1];
        (world.objects, outcome) == Write(old(world.objects), undo.kind, undo.target, undo.from) &&
        State() == (if outcome.Pass? then UndoMove(old(State()))
                    else Stacks(old(availableUndos)[..|old(availableUndos)| - 1], old(availableRedos)))
    {
      if |availableUndos| == 0 {
        return Pass;
      }
      var undo := availableUndos[|availableUndos| - 1];
      availableUndos := availableUndos[..|availableUndos| - 1];
      outcome := Perform(world, undo.kind, undo.target, undo.from);
      if outcome.Fail? {
        return;
      }
      availableRedos := availableRedos + [undo];
    }
  }

  /** The `switch` statement on the world. */
  method Perform(world: World, kind: UndoableActionType, target: TargetRef, value: Boxed) returns (outcome: Outcome<UnityError>)
    requires world.Valid()
    modifies world
    ensures world.Valid() && world.OnlyObjectsChanged()
    ensures (world.objects, outcome) == Write(old(world.objects), kind, target, value)
  {
    match kind {
      case Enable =>
        outcome := Pass;
      case SetActive =>
        if target.TransformRef? || target.OtherObject? {
          return Fail(InvalidCast);
        }
        var b := UnboxBool(value);
        if b.Err? {
          return Fail(b.error);
        }
        if target.NullTarget? {
          return Fail(NullReference);
        }
        if target.id !in world.objects {
          return Fail(MissingReference);
        }
        var g := world.objects[target.id];
        world.SetObject(target.id, g.(activeSelf := b.value));
        outcome := Pass;
      case Position =>
        if target.GameObjectRef? || target.OtherObject? {
          return Fail(InvalidCast);
        }
        var v := UnboxVector(value);
        if v.Err? {
          return Fail(v.error);
        }
        if target.NullTarget? {
          return Fail(NullReference);
        }
        if target.id !in world.objects {
          return Fail(MissingReference);
        }
        var g := world.objects[target.id];
        world.SetObject(target.id, g.(position := v.value));
        outcome := Pass;
    }
  }
}
