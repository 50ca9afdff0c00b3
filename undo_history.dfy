/**
 * The undo/redo history of the drawing canvas, as values.
 *
 * A snapshot is an opaque value of type `S` (the canvas encoded as an image
 * URL in the source). Both stacks keep their top at the END of the sequence,
 * as JavaScript's `push` and `pop` do. Restoring a snapshot is a synchronous
 * replacement of the visible surface; in the source the picture is only
 * redrawn later, when the image finishes loading.
 */
module UndoHistory {

  /** Which stack `SaveState` pushes onto. */
  datatype StackId = UndoStack | RedoStack

  /**
   * The history state: both stacks, the visible surface, and the `disabled`
   * flags of the undo and redo buttons.
   */
  datatype History<S> = History(
    undoStack: seq<S>,
    redoStack: seq<S>,
    surface: S,
    undoDisabled: bool,
    redoDisabled: bool)

  /** Each button is disabled exactly when its stack is empty. */
  predicate ButtonsMatchStacks<S>(h: History<S>) {
    h.undoDisabled == (h.undoStack == []) && h.redoDisabled == (h.redoStack == [])
  }

  /** Every snapshot the history holds, the visible surface included. */
  function Snapshots<S>(h: History<S>): multiset<S> {
    multiset(h.undoStack) + multiset(h.redoStack) + multiset{h.surface}
  }

  /** The number of snapshots on both stacks. */
  function Total<S>(h: History<S>): nat {
    |h.undoStack| + |h.redoStack|
  }

  /**
   * `saveState(stack, keepRedo)`: unless `keepRedo`, the redo stack is
   * replaced by a new empty one and redo is disabled; the current surface is
   * pushed onto `stack`; undo is enabled. The stack argument is bound before
   * the redo stack is replaced, so a push aimed at the redo stack without
   * `keepRedo` lands in the detached old array and is lost.
   */
  function SaveState<S>(h: History<S>, stack: StackId, keepRedo: bool): (r: History<S>)
    ensures r.surface == h.surface && !r.undoDisabled
    ensures !keepRedo ==> r.redoStack == [] && r.redoDisabled
    ensures keepRedo ==> r.redoDisabled == h.redoDisabled
    ensures stack == UndoStack ==>
      r.undoStack == h.undoStack + [h.surface] &&
      r.redoStack == (if keepRedo then h.redoStack else [])
    ensures stack == RedoStack ==>
      r.undoStack == h.undoStack &&
      r.redoStack == (if keepRedo then h.redoStack + [h.surface] else [])
    ensures stack == UndoStack && !keepRedo ==> ButtonsMatchStacks(r)
    ensures stack == UndoStack && ButtonsMatchStacks(h) ==> ButtonsMatchStacks(r)
  {
    var cleared := if keepRedo then h else h.(redoStack := [], redoDisabled := true);
    var pushed :=
      match stack
      case UndoStack => cleared.(undoStack := h.undoStack + [h.surface])
      case RedoStack => if keepRedo then cleared.(redoStack := h.redoStack + [h.surface]) else cleared;
    pushed.(undoDisabled := false)
  }

  /**
   * `undo()`: with an empty undo stack nothing happens. Otherwise the top
   * snapshot is popped and becomes the surface, the surface it replaces is
   * pushed onto the redo stack, redo is enabled, and undo is disabled once
   * its stack is empty.
   */
  function Undo<S>(h: History<S>): (r: History<S>)
    ensures h.undoStack == [] ==> r == h
    ensures h.undoStack != [] ==>
      r.surface == h.undoStack[|h.undoStack| - 1] &&
      r.undoStack == h.undoStack[..|h.undoStack| - 1] &&
      r.redoStack == h.redoStack + [h.surface] &&
      !r.redoDisabled &&
      r.undoDisabled == (r.undoStack == [] || h.undoDisabled)
    ensures Total(r) == Total(h)
    ensures ButtonsMatchStacks(h) ==> ButtonsMatchStacks(r)
  {
    if |h.undoStack| > 0 then
      var n := |h.undoStack| - 1;
      History(h.undoStack[..n], h.redoStack + [h.surface], h.undoStack[n],
              h.undoDisabled || n == 0, false)
    else
      h
  }

  /**
   * `redo()`: the mirror of `Undo`, popping the redo stack and pushing the
   * replaced surface onto the undo stack.
   */
  function Redo<S>(h: History<S>): (r: History<S>)
    ensures h.redoStack == [] ==> r == h
    ensures h.redoStack != [] ==>
      r.surface == h.redoStack[|h.redoStack| - 1] &&
      r.redoStack == h.redoStack[..|h.redoStack| - 1] &&
      r.undoStack == h.undoStack + [h.surface] &&
      !r.undoDisabled &&
      r.redoDisabled == (r.redoStack == [] || h.redoDisabled)
    ensures Total(r) == Total(h)
    ensures ButtonsMatchStacks(h) ==> ButtonsMatchStacks(r)
  {
    if |h.redoStack| > 0 then
      var n := |h.redoStack| - 1;
      History(h.undoStack + [h.surface], h.redoStack[..n], h.redoStack[n],
              false, h.redoDisabled || n == 0)
    else
      h
  }

  /**
   * Undo moves one snapshot from the undo stack to the screen and the one on
   * screen to the redo stack: no snapshot is created or lost.
   */
  lemma UndoConservesSnapshots<S>(h: History<S>)
    ensures Snapshots(Undo(h)) == Snapshots(h)
  {
    if h.undoStack != [] {
      var n := |h.undoStack| - 1;
      assert h.undoStack == h.undoStack[..n] + [h.undoStack[n]];
    }
  }

  /** Redo, likewise, neither creates nor loses a snapshot. */
  lemma RedoConservesSnapshots<S>(h: History<S>)
    ensures Snapshots(Redo(h)) == Snapshots(h)
  {
    if h.redoStack != [] {
      var n := |h.redoStack| - 1;
      assert h.redoStack == h.redoStack[..n] + [h.redoStack[n]];
    }
  }

  /** Undo followed by redo gives back the exact prior history. */
  lemma UndoThenRedo<S>(h: History<S>)
    requires h.undoStack != [] && ButtonsMatchStacks(h)
    ensures Redo(Undo(h)) == h
  {
  }

  /** Redo followed by undo gives back the exact prior history. */
  lemma RedoThenUndo<S>(h: History<S>)
    requires h.redoStack != [] && ButtonsMatchStacks(h)
    ensures Undo(Redo(h)) == h
  {
    var n := |h.redoStack| - 1;
    assert h.redoStack == h.redoStack[..n] + [h.redoStack[n]];
  }

  /** `k` undo clicks in a row. */
  function UndoTimes<S>(h: History<S>, k: nat): (r: History<S>)
    ensures |r.undoStack| == if k <= |h.undoStack| then |h.undoStack| - k else 0
    ensures Total(r) == Total(h)
    ensures ButtonsMatchStacks(h) ==> ButtonsMatchStacks(r)
    decreases k
  {
    if k == 0 then h else UndoTimes(Undo(h), k - 1)
  }

  /** `k` redo clicks in a row. */
  function RedoTimes<S>(h: History<S>, k: nat): (r: History<S>)
    ensures |r.redoStack| == if k <= |h.redoStack| then |h.redoStack| - k else 0
    ensures Total(r) == Total(h)
    ensures ButtonsMatchStacks(h) ==> ButtonsMatchStacks(r)
    decreases k
  {
    if k == 0 then h else RedoTimes(Redo(h), k - 1)
  }

  /** Any number of undo clicks keeps the multiset of snapshots. */
  lemma {:induction false} UndoTimesConservesSnapshots<S>(h: History<S>, k: nat)
    ensures Snapshots(UndoTimes(h, k)) == Snapshots(h)
    decreases k
  {
    if k > 0 {
      UndoConservesSnapshots(h);
      UndoTimesConservesSnapshots(Undo(h), k - 1);
    }
  }

  /** Any number of redo clicks keeps the multiset of snapshots. */
  lemma {:induction false} RedoTimesConservesSnapshots<S>(h: History<S>, k: nat)
    ensures Snapshots(RedoTimes(h, k)) == Snapshots(h)
    decreases k
  {
    if k > 0 {
      RedoConservesSnapshots(h);
      RedoTimesConservesSnapshots(Redo(h), k - 1);
    }
  }

  /** The last of `k + 1` undo clicks is one undo after the first `k`. */
  lemma {:induction false} UndoTimesLast<S>(h: History<S>, k: nat)
    ensures UndoTimes(h, k + 1) == Undo(UndoTimes(h, k))
    decreases k
  {
    if k > 0 {
      UndoTimesLast(Undo(h), k - 1);
    }
  }

  /** The last of `k + 1` redo clicks is one redo after the first `k`. */
  lemma {:induction false} RedoTimesLast<S>(h: History<S>, k: nat)
    ensures RedoTimes(h, k + 1) == Redo(RedoTimes(h, k))
    decreases k
  {
    if k > 0 {
      RedoTimesLast(Redo(h), k - 1);
    }
  }

  /**
   * Any `k` undos that the undo stack can serve, followed by `k` redos,
   * restore the stacks, the surface and both buttons exactly.
   */
  lemma {:induction false} UndosThenRedosRestore<S>(h: History<S>, k: nat)
    requires ButtonsMatchStacks(h) && k <= |h.undoStack|
    ensures RedoTimes(UndoTimes(h, k), k) == h
    decreases k
  {
    if k > 0 {
      var u := Undo(h);
      UndosThenRedosRestore(u, k - 1);
      // RedoTimes(UndoTimes(u, k - 1), k - 1) == u, and one more redo undoes u
      RedoTimesLast(UndoTimes(u, k - 1), k - 1);
      UndoThenRedo(h);
    }
  }

  /**
   * Any `k` redos that the redo stack can serve, followed by `k` undos,
   * restore the stacks, the surface and both buttons exactly.
   */
  lemma {:induction false} RedosThenUndosRestore<S>(h: History<S>, k: nat)
    requires ButtonsMatchStacks(h) && k <= |h.redoStack|
    ensures UndoTimes(RedoTimes(h, k), k) == h
    decreases k
  {
    if k > 0 {
      var d := Redo(h);
      RedosThenUndosRestore(d, k - 1);
      UndoTimesLast(RedoTimes(d, k - 1), k - 1);
      RedoThenUndo(h);
    }
  }
}
