/**
 * The drawing session as values: the history, the `drawing` flag, the tool
 * state, the current path and the 2D context's pen settings, with one
 * transition function per event handler of the app.
 *
 * Pixel rendering is a platform primitive; `ctx.stroke()` is a `Painter`,
 * an arbitrary function from the surface, the pen and the current path to
 * the new surface.
 */
module DrawingSession {
  import opened Pointer
  import opened UndoHistory

  /** `currentMode`: the source compares it with "erase" and treats anything else as drawing. */
  datatype Mode = DrawMode | EraseMode

  /** `globalCompositeOperation`: "source-over" paints, "destination-out" erases. */
  datatype Composite = SourceOver | DestinationOut

  datatype LineCap = Butt | Round

  /** The context fields the handlers set: composite, `strokeStyle`, `lineWidth`, `lineCap`. */
  datatype Pen = Pen(composite: Composite, strokeStyle: string, lineWidth: string, lineCap: LineCap)

  /** The platform's initial context settings. */
  const DefaultPen := Pen(SourceOver, "#000000", "1", Butt)

  /** Strokes the whole current path onto a surface. */
  type Painter<!S> = (S, Pen, seq<Point>) -> S

  datatype Session<S> = Session(
    history: History<S>,
    drawing: bool,
    mode: Mode,
    color: string,
    brushSize: string,
    path: seq<Point>,
    pen: Pen)

  /**
   * The session after the script's start-up: tool state from the inputs,
   * not drawing, and the blank surface saved as the first undo snapshot.
   * The buttons' initial `disabled` flags come from the page.
   */
  function Init<S>(blank: S, color: string, brushSize: string,
                   undoDisabled: bool, redoDisabled: bool): (s: Session<S>)
    ensures ButtonsMatchStacks(s.history)
    ensures s.history.undoStack == [blank] && s.history.redoStack == []
    ensures s.history.surface == blank
    ensures !s.drawing && s.mode == DrawMode && s.path == []
  {
    var h := History([], [], blank, undoDisabled, redoDisabled);
    Session(SaveState(h, UndoStack, false), false, DrawMode, color, brushSize, [], DefaultPen)
  }

  /**
   * `startDrawing`: the flag is set and a new path begins at the event's
   * position. When the position cannot be read the source fails after
   * `beginPath`, leaving the flag set and the path empty.
   */
  function StartDrawing<S>(s: Session<S>, e: Event, at: Offset): (r: Session<S>)
    ensures r.drawing
    ensures r.path == (if GetCoordinates(e, at).Some? then [GetCoordinates(e, at).value] else [])
    ensures r.history == s.history && r.mode == s.mode && r.pen == s.pen
    ensures r.color == s.color && r.brushSize == s.brushSize
  {
    var path := match GetCoordinates(e, at) case Some(p) => [p] case None => [];
    s.(drawing := true, path := path)
  }

  /** The pen `draw` sets up for the current mode. */
  function StrokePen<S>(s: Session<S>): (pen: Pen)
    ensures pen.lineWidth == s.brushSize && pen.lineCap == Round
    ensures s.mode == EraseMode ==> pen.composite == DestinationOut && pen.strokeStyle == s.pen.strokeStyle
    ensures s.mode == DrawMode ==> pen.composite == SourceOver && pen.strokeStyle == s.color
  {
    match s.mode
    case EraseMode => s.pen.(composite := DestinationOut, lineWidth := s.brushSize, lineCap := Round)
    case DrawMode => Pen(SourceOver, s.color, s.brushSize, Round)
  }

  /**
   * `draw`: ignored unless a stroke is in progress. Otherwise the event's
   * point extends the path, the pen is set for the mode, and the path is
   * stroked onto the surface. The history stacks and buttons never change:
   * painting makes no undo point.
   */
  function Draw<S>(s: Session<S>, e: Event, at: Offset, paint: Painter<S>): (r: Session<S>)
    ensures !s.drawing || GetCoordinates(e, at).None? ==> r == s
    ensures r.history.undoStack == s.history.undoStack && r.history.redoStack == s.history.redoStack
    ensures r.history.undoDisabled == s.history.undoDisabled
    ensures r.history.redoDisabled == s.history.redoDisabled
    ensures r.drawing == s.drawing && r.mode == s.mode
    ensures r.color == s.color && r.brushSize == s.brushSize
    ensures s.drawing && GetCoordinates(e, at).Some? ==>
      r.path == s.path + [GetCoordinates(e, at).value] &&
      r.pen == StrokePen(s) &&
      r.history.surface == paint(s.history.surface, r.pen, r.path)
  {
    if !s.drawing then s
    else
      match GetCoordinates(e, at)
      case None => s
      case Some(p) =>
        var pen := StrokePen(s);
        var path := s.path + [p];
        s.(pen := pen, path := path,
           history := s.history.(surface := paint(s.history.surface, pen, path)))
  }

  /**
   * `stopDrawing`: ignored unless a stroke is in progress. Otherwise the flag
   * is cleared and the surface as it now is (the stroke included) is saved:
   * one more undo snapshot, the redo history dropped.
   */
  function StopDrawing<S>(s: Session<S>): (r: Session<S>)
    ensures !s.drawing ==> r == s
    ensures !r.drawing && r.mode == s.mode && r.path == s.path && r.pen == s.pen
    ensures r.color == s.color && r.brushSize == s.brushSize
    ensures r.history.surface == s.history.surface
    ensures s.drawing ==>
      r.history.undoStack == s.history.undoStack + [s.history.surface] &&
      r.history.redoStack == [] &&
      ButtonsMatchStacks(r.history)
    ensures ButtonsMatchStacks(s.history) ==> ButtonsMatchStacks(r.history)
  {
    if !s.drawing then s
    else
      var h := SaveState(s.history, UndoStack, false);
      s.(drawing := false, history := h.(undoDisabled := false, redoDisabled := true))
  }

  /** The draw and erase buttons: only the mode changes. */
  function SetMode<S>(s: Session<S>, m: Mode): (r: Session<S>)
    ensures r.mode == m
    ensures r.history == s.history && r.drawing == s.drawing && r.path == s.path && r.pen == s.pen
    ensures r.color == s.color && r.brushSize == s.brushSize
  {
    s.(mode := m)
  }

  /**
   * The first undo after a stroke pops the snapshot that stroke just saved,
   * which is the picture already on screen, and leaves the undo stack as it
   * was before the stroke; the second undo shows the top of that stack. That
   * top is the picture the stroke was drawn on only when the stroke did not
   * follow an undo (see `StrokeAfterUndoLosesPicture`).
   */
  lemma UndoRightAfterStroke<S>(s: Session<S>)
    requires s.drawing
    ensures Undo(StopDrawing(s).history).surface == s.history.surface
    ensures Undo(StopDrawing(s).history).undoStack == s.history.undoStack
    ensures s.history.undoStack != [] ==>
      Undo(Undo(StopDrawing(s).history)).surface == s.history.undoStack[|s.history.undoStack| - 1]
  {
  }

  /** What the user can do to the session. */
  datatype Action =
    | PointerDown(e: Event, at: Offset)
    | PointerMove(e: Event, at: Offset)
    | PointerUp
    | UndoClick
    | RedoClick
    | DrawClick
    | EraseClick

  /**
   * One action. A disabled button does not deliver its click, so undo and
   * redo run only while their button is enabled.
   */
  function Step<S>(s: Session<S>, a: Action, paint: Painter<S>): (r: Session<S>)
    ensures ButtonsMatchStacks(s.history) ==> ButtonsMatchStacks(r.history)
    ensures a.UndoClick? || a.RedoClick? || a.DrawClick? || a.EraseClick? ==>
      Total(r.history) == Total(s.history)
  {
    match a
    case PointerDown(e, at) => StartDrawing(s, e, at)
    case PointerMove(e, at) => Draw(s, e, at, paint)
    case PointerUp => StopDrawing(s)
    case UndoClick => if s.history.undoDisabled then s else s.(history := Undo(s.history))
    case RedoClick => if s.history.redoDisabled then s else s.(history := Redo(s.history))
    case DrawClick => SetMode(s, DrawMode)
    case EraseClick => SetMode(s, EraseMode)
  }

  /** A sequence of actions, first to last. */
  function Run<S>(s: Session<S>, actions: seq<Action>, paint: Painter<S>): Session<S>
    decreases |actions|
  {
    if actions == [] then s else Run(Step(s, actions[0], paint), actions[1..], paint)
  }

  /** Every sequence of actions keeps each button disabled exactly when its stack is empty. */
  lemma {:induction false} RunKeepsButtonsMatchStacks<S>(s: Session<S>, actions: seq<Action>, paint: Painter<S>)
    requires ButtonsMatchStacks(s.history)
    ensures ButtonsMatchStacks(Run(s, actions, paint).history)
    decreases |actions|
  {
    if actions != [] {
      RunKeepsButtonsMatchStacks(Step(s, actions[0], paint), actions[1..], paint);
    }
  }

  /** From start-up on, whatever the user does, the buttons agree with the stacks. */
  lemma ButtonsMatchStacksAfterStartUp<S>(blank: S, color: string, brushSize: string,
                                          undoDisabled: bool, redoDisabled: bool,
                                          actions: seq<Action>, paint: Painter<S>)
    ensures ButtonsMatchStacks(Run(Init(blank, color, brushSize, undoDisabled, redoDisabled), actions, paint).history)
  {
    RunKeepsButtonsMatchStacks(Init(blank, color, brushSize, undoDisabled, redoDisabled), actions, paint);
  }

  /** Actions that only move through the history or pick a tool. */
  predicate Navigating(a: Action) {
    a.UndoClick? || a.RedoClick? || a.DrawClick? || a.EraseClick?
  }

  /** One undo, redo or tool click keeps the multiset of snapshots. */
  lemma StepConservesSnapshots<S>(s: Session<S>, a: Action, paint: Painter<S>)
    requires Navigating(a)
    ensures Snapshots(Step(s, a, paint).history) == Snapshots(s.history)
  {
    var h := s.history;
    match a
    case UndoClick =>
      UndoConservesSnapshots(h);
      assert Step(s, a, paint).history == if h.undoDisabled then h else Undo(h);
    case RedoClick =>
      RedoConservesSnapshots(h);
      assert Step(s, a, paint).history == if h.redoDisabled then h else Redo(h);
    case DrawClick =>
      assert Step(s, a, paint).history == h;
    case EraseClick =>
      assert Step(s, a, paint).history == h;
  }

  /**
   * Undo, redo and tool clicks never create or destroy a snapshot: the
   * snapshots on both stacks and on screen stay the same multiset.
   */
  lemma {:induction false} NavigationConservesSnapshots<S>(s: Session<S>, actions: seq<Action>, paint: Painter<S>)
    requires forall i :: 0 <= i < |actions| ==> Navigating(actions[i])
    ensures Total(Run(s, actions, paint).history) == Total(s.history)
    ensures Snapshots(Run(s, actions, paint).history) == Snapshots(s.history)
    decreases |actions|
  {
    if actions != [] {
      StepConservesSnapshots(s, actions[0], paint);
      NavigationConservesSnapshots(Step(s, actions[0], paint), actions[1..], paint);
    }
  }

  /** Running one sequence of actions after another is running their concatenation. */
  lemma {:induction false} RunAppend<S>(s: Session<S>, a: seq<Action>, b: seq<Action>, paint: Painter<S>)
    ensures Run(s, a + b, paint) == Run(Run(s, a, paint), b, paint)
    decreases |a|
  {
    if a == [] {
      assert a + b == b;
    } else {
      assert (a + b)[0] == a[0] && (a + b)[1..] == a[1..] + b;
      RunAppend(Step(s, a[0], paint), a[1..], b, paint);
    }
  }

  /** The pointer moves of one stroke, all over the same canvas. */
  function MoveActions(moves: seq<Event>, at: Offset): (acts: seq<Action>)
    ensures |acts| == |moves|
    ensures forall i :: 0 <= i < |acts| ==> acts[i].PointerMove?
  {
    seq(|moves|, i requires 0 <= i < |moves| => PointerMove(moves[i], at))
  }

  /** One stroke: press, any number of moves, release. */
  function Stroke(down: Event, moves: seq<Event>, at: Offset): seq<Action> {
    [PointerDown(down, at)] + MoveActions(moves, at) + [PointerUp]
  }

  /**
   * While a stroke is in progress, pointer moves only paint: the flag stays
   * set, and the stacks and buttons do not change.
   */
  lemma {:induction false} MovesKeepHistory<S>(s: Session<S>, acts: seq<Action>, paint: Painter<S>)
    requires s.drawing
    requires forall i :: 0 <= i < |acts| ==> acts[i].PointerMove?
    ensures Run(s, acts, paint).drawing
    ensures Run(s, acts, paint).history.undoStack == s.history.undoStack
    ensures Run(s, acts, paint).history.redoStack == s.history.redoStack
    ensures Run(s, acts, paint).history.undoDisabled == s.history.undoDisabled
    ensures Run(s, acts, paint).history.redoDisabled == s.history.redoDisabled
    decreases |acts|
  {
    if acts != [] {
      assert acts[0].PointerMove?;
      MovesKeepHistory(Step(s, acts[0], paint), acts[1..], paint);
    }
  }

  /**
   * A completed stroke, with any number of moves, ends the stroke, drops the
   * redo history whatever was undone before it, and pushes exactly the
   * surface it painted onto the undo stack, which stays on screen.
   */
  lemma StrokeClearsRedo<S>(s: Session<S>, down: Event, moves: seq<Event>, at: Offset, paint: Painter<S>)
    ensures !Run(s, Stroke(down, moves, at), paint).drawing
    ensures Run(s, Stroke(down, moves, at), paint).history.redoStack == []
    ensures Run(s, Stroke(down, moves, at), paint).history.undoStack
         == s.history.undoStack + [Run(s, [PointerDown(down, at)] + MoveActions(moves, at), paint).history.surface]
    ensures Run(s, Stroke(down, moves, at), paint).history.surface
         == Run(s, [PointerDown(down, at)] + MoveActions(moves, at), paint).history.surface
    ensures ButtonsMatchStacks(Run(s, Stroke(down, moves, at), paint).history)
  {
    var acts := MoveActions(moves, at);
    var started := Step(s, PointerDown(down, at), paint);
    assert Run(s, [PointerDown(down, at)], paint) == started by {
      assert Run(started, [], paint) == started;
    }
    RunAppend(s, [PointerDown(down, at)], acts, paint);
    var painted := Run(started, acts, paint);
    MovesKeepHistory(started, acts, paint);
    RunAppend(s, [PointerDown(down, at)] + acts, [PointerUp], paint);
    assert Run(painted, [PointerUp], paint) == StopDrawing(painted) by {
      assert Run(StopDrawing(painted), [], paint) == StopDrawing(painted);
    }
  }

  /**
   * Two strokes from a blank start, as the code behaves: each stroke saves
   * the surface it painted, so the undo stack holds the blank surface and
   * both stroke results, with the second one on screen.
   */
  lemma TwoStrokesFromBlank<S>(blank: S, color: string, brushSize: string, ud: bool, rd: bool,
                               first: seq<Action>, second: seq<Action>, paint: Painter<S>,
                               d1: Event, m1: seq<Event>, d2: Event, m2: seq<Event>, at: Offset)
    requires first == Stroke(d1, m1, at) && second == Stroke(d2, m2, at)
    ensures
      var s1 := Run(Init(blank, color, brushSize, ud, rd), first, paint);
      var s2 := Run(s1, second, paint);
      s2.history == History([blank, s1.history.surface, s2.history.surface], [], s2.history.surface, false, true)
  {
    var s0 := Init(blank, color, brushSize, ud, rd);
    StrokeClearsRedo(s0, d1, m1, at, paint);
    var s1 := Run(s0, first, paint);
    StrokeClearsRedo(s1, d2, m2, at, paint);
  }

  /**
   * A stroke drawn right after an undo loses the picture that undo brought
   * back. Start from one stroke `a` on a blank canvas; an undo still shows
   * `a` but moves it from the undo stack to the redo stack; the next stroke
   * `c` drops the redo stack, so the two following undos show `c` and then
   * the blank surface, and `a` is held nowhere any more.
   */
  lemma StrokeAfterUndoLosesPicture<S>(s: Session<S>, blank: S, a: S,
                                       down: Event, moves: seq<Event>, at: Offset, paint: Painter<S>)
    requires s.history == History([blank, a], [], a, false, true) && !s.drawing
    ensures Step(s, UndoClick, paint).history.surface == a
    ensures
      var h := Run(Step(s, UndoClick, paint), Stroke(down, moves, at), paint).history;
      h == History([blank, h.surface], [], h.surface, false, true) &&
      Undo(h).surface == h.surface && Undo(Undo(h)).surface == blank &&
      (a != blank && a != h.surface ==> a !in Snapshots(h))
  {
    var u := Step(s, UndoClick, paint);
    assert [blank, a][..1] == [blank];
    assert u.history == History([blank], [a], a, false, false);
    StrokeClearsRedo(u, down, moves, at, paint);
  }

  /**
   * Continuing from two strokes: the first undo still shows the second
   * stroke, the second the first stroke, the third the blank surface, and a
   * fourth does nothing; three redos then bring back the history exactly.
   */
  lemma UndoRedoAfterTwoStrokes<S>(blank: S, a: S, b: S)
    ensures
      var h := History([blank, a, b], [], b, false, true);
      Undo(h) == History([blank, a], [b], b, false, false) &&
      Undo(Undo(h)) == History([blank], [b, b], a, false, false) &&
      Undo(Undo(Undo(h))) == History([], [b, b, a], blank, true, false) &&
      Undo(Undo(Undo(Undo(h)))) == Undo(Undo(Undo(h))) &&
      Redo(Undo(Undo(Undo(h)))).surface == a &&
      Redo(Redo(Undo(Undo(Undo(h))))).surface == b &&
      RedoTimes(UndoTimes(h, 3), 3) == h
  {
    var h := History([blank, a, b], [], b, false, true);
    assert [blank, a, b][..2] == [blank, a];
    assert [blank, a][..1] == [blank];
    assert [b, b, a][..2] == [b, b];
    assert [b, b][..1] == [b];
    UndosThenRedosRestore(h, 3);
  }
}
