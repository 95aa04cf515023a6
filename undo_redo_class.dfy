/**
 * `UndoRedoClass`: the static undo and redo stacks of `UndoableChange`s.
 * The static class is modelled as one object holding both stacks.
 */
module UndoRedoClasses {
  import opened Wrappers
  import opened Strings
  import opened Engine
  import opened TwoStacks
  import opened UndoableChanges

  /** The message `Undo` and `Redo` both send to `Debug.LogError`, with the stack count appended. */
  function CountMessage(count: nat): (m: string)
    ensures |m| > |"undo stack count"| && m[..|"undo stack count"|] == "undo stack count"
    ensures IsDigit(m[|m| - 1])
  {
    var digits := NatToString(count);
    assert IsDigit(digits[|digits| - 1]);
    "undo stack count" + digits
  }

  /** The counts of two messages are equal exactly when the messages are. */
  lemma CountMessageInjective(a: nat, b: nat)
    ensures CountMessage(a) == CountMessage(b) <==> a == b
  {
    if CountMessage(a) == CountMessage(b) {
      var p := "undo stack count";
      assert NatToString(a) == CountMessage(a)[|p|..];
      assert NatToString(b) == CountMessage(b)[|p|..];
      NatToStringInjective(a, b);
    }
  }

  class UndoRedoClass {
    var undoStack: seq<UndoableChange>
    var redoStack: seq<UndoableChange>

    function State(): Stacks<UndoableChange>
      reads this
    {
      Stacks(undoStack, redoStack)
    }

    constructor ()
      ensures undoStack == [] && redoStack == []
    {
      undoStack := [];
      redoStack := [];
    }

    /**
     * Pops the top change and undoes it; the change goes onto the redo
     * stack only when its undo does not throw.
     */
    method Undo(world: World) returns (outcome: Outcome<UnityError>)
      requires world.Valid()
      modifies this, world
      ensures world.Valid()
      ensures world.errorLog == old(world.errorLog) + [CountMessage(|old(undoStack)|)]
      ensures world.nextId == old(world.nextId) && world.meshes == old(world.meshes)
      ensures world.destroyLog == old(world.destroyLog) && world.pendingDestroy == old(world.pendingDestroy)
      ensures |old(undoStack)| == 0 ==> outcome == Pass && world.objects == old(world.objects) && State() == old(State())
      ensures |old(undoStack)| > 0 ==>
        (world.objects, outcome) == ApplyAll(old(world.objects), old(undoStack)[|old(undoStack)| - 1].before) &&
        State() == (if outcome.Pass? then UndoMove(old(State()))
                    else Stacks(old(undoStack)[..|old(undoStack)| - 1], old(redoStack)))
    {
      world.LogError(CountMessage(|undoStack|));
      if |undoStack| == 0 {
        return Pass;
      }
      var lastAction := undoStack[|undoStack| - 1];
      undoStack := undoStack[..|undoStack| - 1];
      outcome := UndoableChanges.Undo(lastAction, world);
      if outcome.Fail? {
        return;
      }
      redoStack := redoStack + [lastAction];
    }

    /**
     * Pops the top change of the redo stack and redoes it; it goes back
     * onto the undo stack only when its redo does not throw.
     */
    method Redo(world: World) returns (outcome: Outcome<UnityError>)
      requires world.Valid()
      modifies this, world
      ensures world.Valid()
      ensures world.errorLog == old(world.errorLog) + [CountMessage(|old(redoStack)|)]
      ensures world.nextId == old(world.nextId) && world.meshes == old(world.meshes)
      ensures world.destroyLog == old(world.destroyLog) && world.pendingDestroy == old(world.pendingDestroy)
      ensures |old(redoStack)| == 0 ==> outcome == Pass && world.objects == old(world.objects) && State() == old(State())
      ensures |old(redoStack)| > 0 ==>
        (world.objects, outcome) == ApplyAll(old(world.objects), old(redoStack)[|old(redoStack)| - 1].after) &&
        State() == (if outcome.Pass? then RedoMove(old(State()))
                    else Stacks(old(undoStack), old(redoStack)[..|old(redoStack)| - 1]))
    {
      world.LogError(CountMessage(|redoStack|));
      if |redoStack| == 0 {
        return Pass;
      }
      var lastAction := redoStack[|redoStack| - 1];
      redoStack := redoStack[..|redoStack| - 1];
      outcome := UndoableChanges.Redo(lastAction, world);
      if outcome.Fail? {
        return;
      }
      undoStack := undoStack + [lastAction];
    }

    /** Clears the redo stack and pushes the new change. */
    method AddAction(action: UndoableChange)
      modifies this
      ensures State() == Track(old(State()), action)
    {
      redoStack := [];
      undoStack := undoStack + [action];
    }
  }
}
