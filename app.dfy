/**
 * The app's mutable state and its event handlers. The module-level variables
 * of the script and the fields of the 2D context and the two history
 * buttons are the fields of one `DrawingApp` object; each handler is a
 * method that updates them in place and is proved to perform the matching
 * transition of `DrawingSession` on the abstract state `Model()`.
 */
module App {
  import opened Pointer
  import opened UndoHistory
  import opened DrawingSession

  class DrawingApp<S> {
    // history
    var undoStack: seq<S>
    var redoStack: seq<S>
    var surface: S
    var undoDisabled: bool
    var redoDisabled: bool
    // drawing state
    var drawing: bool
    var currentMode: Mode
    var currentColor: string
    var currentBrushSize: string
    var path: seq<Point>
    // 2D context settings
    var globalCompositeOperation: Composite
    var strokeStyle: string
    var lineWidth: string
    var lineCap: LineCap
    /** The platform's `ctx.stroke()` on the current path. */
    const paint: Painter<S>

    ghost function History(): History<S>
      reads this
    {
      UndoHistory.History(undoStack, redoStack, surface, undoDisabled, redoDisabled)
    }

    function Pen(): Pen
      reads this
    {
      DrawingSession.Pen(globalCompositeOperation, strokeStyle, lineWidth, lineCap)
    }

    ghost function Model(): Session<S>
      reads this
    {
      Session(History(), drawing, currentMode, currentColor, currentBrushSize, path, Pen())
    }

    /** Each button is disabled exactly when its stack is empty. */
    ghost predicate ButtonsAgree()
      reads this
    {
      ButtonsMatchStacks(History())
    }

    /**
     * Script start-up: tool state read from the colour and brush-size
     * inputs, then the blank surface saved for undo.
     */
    constructor (blank: S, color: string, brushSize: string,
                 undoDisabled0: bool, redoDisabled0: bool, paint: Painter<S>)
      ensures Model() == Init(blank, color, brushSize, undoDisabled0, redoDisabled0)
      ensures ButtonsAgree() && this.paint == paint
    {
      undoStack, redoStack, surface := [], [], blank;
      undoDisabled, redoDisabled := undoDisabled0, redoDisabled0;
      drawing, currentMode := false, DrawMode;
      currentColor, currentBrushSize := color, brushSize;
      path := [];
      globalCompositeOperation, strokeStyle, lineWidth, lineCap := SourceOver, "#000000", "1", Butt;
      this.paint := paint;
      new;
      SaveState(UndoStack, false);
    }

    /** `saveState(stack, keepRedo)`. */
    method SaveState(stack: StackId, keepRedo: bool)
      modifies this
      ensures Model() == old(Model()).(history := UndoHistory.SaveState(old(History()), stack, keepRedo))
      ensures stack == UndoStack && (!keepRedo || old(ButtonsAgree())) ==> ButtonsAgree()
    {
      if !keepRedo {
        // a fresh empty array replaces the redo stack; an argument that was
        // the old redo stack is no longer reachable as `redoStack`
        redoStack := [];
        redoDisabled := true;
      }
      match stack {
        case UndoStack => undoStack := undoStack + [surface];
        case RedoStack => if keepRedo { redoStack := redoStack + [surface]; }
      }
      undoDisabled := false;
    }

    /**
     * `restoreState`: the snapshot becomes the visible surface. In the source
     * the canvas is cleared and redrawn only in the image's `onload` callback,
     * after the handler has returned; here that happens at once.
     */
    method RestoreState(snapshot: S)
      modifies this`surface
      ensures surface == snapshot
    {
      surface := snapshot;
    }

    /** `startDrawing(event)`. */
    method StartDrawing(e: Event, at: Offset)
      modifies this
      ensures Model() == DrawingSession.StartDrawing(old(Model()), e, at)
    {
      drawing := true;
      path := [];  // beginPath
      var p := GetCoordinates(e, at);
      if p.Some? {
        path := [p.value];  // moveTo
      }
    }

    /** `draw(event)`. */
    method Draw(e: Event, at: Offset)
      modifies this
      ensures Model() == DrawingSession.Draw(old(Model()), e, at, paint)
    {
      if !drawing {
        return;
      }
      var p := GetCoordinates(e, at);
      if p.None? {
        return;
      }
      if currentMode == EraseMode {
        globalCompositeOperation := DestinationOut;
      } else {
        globalCompositeOperation := SourceOver;
        strokeStyle := currentColor;
      }
      lineWidth := currentBrushSize;
      lineCap := Round;
      path := path + [p.value];  // lineTo
      surface := paint(surface, Pen(), path);  // stroke
    }

    /** `stopDrawing(event)`. */
    method StopDrawing()
      modifies this
      ensures Model() == DrawingSession.StopDrawing(old(Model()))
      ensures old(drawing) ==> ButtonsAgree() && undoStack == old(undoStack) + [old(surface)]
    {
      if !drawing {
        return;
      }
      drawing := false;
      SaveState(UndoStack, false);
      undoDisabled := false;
      redoDisabled := true;
    }

    /** `undo()`. */
    method Undo()
      modifies this
      ensures Model() == old(Model()).(history := UndoHistory.Undo(old(History())))
      ensures old(ButtonsAgree()) ==> ButtonsAgree()
    {
      ghost var before := History();
      if |undoStack| > 0 {
        var lastState := undoStack[|undoStack| - 1];
        undoStack := undoStack[..|undoStack| - 1];
        redoStack := redoStack + [surface];
        RestoreState(lastState);
        redoDisabled := false;
        if |undoStack| == 0 {
          undoDisabled := true;
        }
      }
      assert History() == UndoHistory.Undo(before);
    }

    /** `redo()`. */
    method Redo()
      modifies this
      ensures Model() == old(Model()).(history := UndoHistory.Redo(old(History())))
      ensures old(ButtonsAgree()) ==> ButtonsAgree()
    {
      ghost var before := History();
      if |redoStack| > 0 {
        var lastRedo := redoStack[|redoStack| - 1];
        redoStack := redoStack[..|redoStack| - 1];
        undoStack := undoStack + [surface];
        RestoreState(lastRedo);
        undoDisabled := false;
        if |redoStack| == 0 {
          redoDisabled := true;
        }
      }
      assert History() == UndoHistory.Redo(before);
    }

    /** The draw-mode button. */
    method SelectDrawMode()
      modifies this
      ensures Model() == SetMode(old(Model()), DrawMode)
    {
      currentMode := DrawMode;
    }

    /** The erase-mode button. */
    method SelectEraseMode()
      modifies this
      ensures Model() == SetMode(old(Model()), EraseMode)
    {
      currentMode := EraseMode;
    }
  }

  /**
   * A client of the class: a stroke, then undo and redo. The history ends as
   * the stroke left it: the painted surface on screen and on top of the undo
   * stack, the redo stack empty, undo enabled and redo disabled.
   */
  method StrokeUndoRedo<S>(app: DrawingApp<S>, down: Event, move: Event, at: Offset)
    requires app.ButtonsAgree() && !app.drawing
    modifies app
    ensures app.History() == UndoHistory.History(old(app.undoStack) + [app.surface], [], app.surface, false, true)
    ensures app.ButtonsAgree()
  {
    app.StartDrawing(down, at);
    app.Draw(move, at);
    app.StopDrawing();
    ghost var painted := app.surface;
    ghost var afterStroke := app.History();
    app.Undo();
    assert app.surface == painted;
    app.Redo();
    assert app.History() == afterStroke;
  }
}
