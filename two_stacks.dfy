/**
 * The undo/redo history shared by `UndoRedoSystem` and `UndoRedoClass`:
 * two stacks whose tops are the last elements of the sequences.
 */
module TwoStacks {
  datatype Stacks<T> = Stacks(undo: seq<T>, redo: seq<T>)

  function Size<T>(s: Stacks<T>): nat {
    |s.undo| + |s.redo|
  }

  /** Recording a new action: the redo stack is cleared and the action goes on top of undo. */
  function Track<T>(s: Stacks<T>, a: T): (r: Stacks<T>)
    ensures r.redo == []
    ensures |r.undo| == |s.undo| + 1 && r.undo[|s.undo|] == a
    ensures forall i :: 0 <= i < |s.undo| ==> r.undo[i] == s.undo[i]
  {
    Stacks(s.undo + [a], [])
  }

  /** A successful undo: the top of undo moves to the top of redo. */
  function UndoMove<T>(s: Stacks<T>): (r: Stacks<T>)
    requires |s.undo| > 0
    ensures Size(r) == Size(s)
    ensures |r.undo| == |s.undo| - 1 && |r.redo| == |s.redo| + 1
    ensures r.redo[|r.redo| - 1] == s.undo[|s.undo| - 1]
  {
    Stacks(s.undo[..|s.undo| - 1], s.redo + [s.undo[|s.undo| - 1]])
  }

  /** A successful redo: the top of redo moves to the top of undo. */
  function RedoMove<T>(s: Stacks<T>): (r: Stacks<T>)
    requires |s.redo| > 0
    ensures Size(r) == Size(s)
    ensures |r.redo| == |s.redo| - 1 && |r.undo| == |s.undo| + 1
    ensures r.undo[|r.undo| - 1] == s.redo[|s.redo| - 1]
  {
    Stacks(s.undo + [s.redo[|s.redo| - 1]], s.redo[..|s.redo| - 1])
  }

  /** Undo followed by redo restores both stacks. */
  lemma UndoThenRedo<T>(s: Stacks<T>)
    requires |s.undo| > 0
    ensures RedoMove(UndoMove(s)) == s
  {
    var u := s.undo;
    assert u[..|u| - 1] + [u[|u| - 1]] == u;
    assert (s.redo + [u[|u| - 1]])[..|s.redo|] == s.redo;
  }

  /** Redo followed by undo restores both stacks. */
  lemma RedoThenUndo<T>(s: Stacks<T>)
    requires |s.redo| > 0
    ensures UndoMove(RedoMove(s)) == s
  {
    var d := s.redo;
    assert d[..|d| - 1] + [d[|d| - 1]] == d;
    assert (s.undo + [d[|d| - 1]])[..|s.undo|] == s.undo;
  }

  /** Undoing the action just tracked leaves the old undo stack and only that action to redo. */
  lemma TrackThenUndo<T>(s: Stacks<T>, a: T)
    ensures UndoMove(Track(s, a)) == Stacks(s.undo, [a])
  {
    assert (s.undo + [a])[..|s.undo|] == s.undo;
  }
}
