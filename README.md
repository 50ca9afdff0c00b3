# Canvas drawing app: undo/redo history and stroke state machine

The app (`app.js`) is a browser canvas for freehand drawing and erasing. It keeps an
undo/redo history of whole-canvas snapshots and enables or disables the undo and redo
buttons to match. This project models that history and the drawing-session state machine
around it:

- `Pointer` (`pointer.dfy`): `getCoordinates`. It maps a mouse or touch event to
  canvas-local integer coordinates.
- `UndoHistory` (`undo_history.dfy`): the two snapshot stacks, the visible surface and the
  two button flags, as a value. It holds `saveState`, `undo` and `redo` as functions, plus
  the round-trip, conservation and button invariants.
- `DrawingSession` (`drawing_session.dfy`): the whole session state as a value, with one
  transition per handler (`startDrawing`, `draw`, `stopDrawing`, the mode buttons). It also
  has a `Step`/`Run` interpreter for user actions and the lemmas about runs.
- `App` (`app.dfy`): class `DrawingApp`. Its fields are the script's module-level
  variables, the 2D context settings and the button flags. Each handler is a method that
  updates those fields in place. Its `ensures` says the abstract state `Model()` moves
  exactly as the matching `DrawingSession` transition says.

Snapshots are a type parameter `S`, standing for the `toDataURL()` image strings. Painting is a
function `paint(surface, pen, path)` supplied by the platform; the model does not look
inside it. Restoring a snapshot is a plain assignment of the surface. In the source the
canvas is only redrawn later, in the image's `onload` callback (app.js:48-51).

Behaviour the model follows because the code does it:

- An undo right after a stroke does not bring back the picture from before the stroke.
  `stopDrawing` saves the surface after the stroke (app.js:89). So the first undo pops a
  snapshot equal to what is already on screen (`UndoRightAfterStroke`). The second undo
  shows the top of the undo stack from before the stroke (`UndoRedoAfterTwoStrokes`).
- That top is not always the picture the stroke was drawn on. After an undo, the picture
  on screen has been moved from the undo stack to the redo stack, and the next stroke
  empties the redo stack (app.js:37, 110-111). So a stroke drawn right after an undo loses
  the picture it was drawn on for good (`StrokeAfterUndoLosesPicture`).
- The same snapshot can sit on a stack more than once. After two strokes and two undos the
  redo stack holds the second stroke's surface twice.
- `saveState`'s flag means *keep* the redo stack (`keepRedo`). Every call in the source
  leaves it at its default `false`, so every save clears the redo stack.

## Model

| member | source | states |
|---|---|---|
| `Pointer.GetCoordinates` | app.js:95-105 | Fails exactly when a touch list is present but empty. Otherwise the point plus the canvas offset gives back the client position of the mouse or of the first touch. |
| `Pointer.TranslationInvariant` | app.js:95-105 | Moving the canvas and the pointer by the same amount gives the same canvas-local point. |
| `Pointer.FirstTouchDecides` | app.js:97-99 | For touch events only the first touch matters. Two events that agree on it give the same point. |
| `UndoHistory.SaveState` | app.js:35-42 | The surface is unchanged and undo is enabled. Without `keepRedo`, the redo stack is emptied and redo disabled. Saving to the undo stack grows it by exactly the current surface on top. Saving to the redo stack without `keepRedo` loses the snapshot. A save to the undo stack always makes the buttons agree with the stacks when `keepRedo` is false, and keeps them agreeing otherwise. |
| `UndoHistory.Undo` | app.js:108-119 | With an empty undo stack nothing changes. Otherwise the top snapshot becomes the surface, the old surface goes on top of the redo stack, redo is enabled, and undo is disabled once its stack is empty. It keeps the total count and keeps the buttons agreeing with the stacks. |
| `UndoHistory.Redo` | app.js:122-133 | The mirror of undo: the same no-op, pop/push, button, count and invariant properties, with the stacks swapped. |
| `UndoHistory.UndoConservesSnapshots` | app.js:109-112 | Undo keeps the multiset of all snapshots, the one on screen included: a snapshot moves, none is created or lost. |
| `UndoHistory.RedoConservesSnapshots` | app.js:123-126 | Redo keeps the multiset of all snapshots, the one on screen included. |
| `UndoHistory.UndoThenRedo` | app.js:108-133 | When the buttons agree and the undo stack is non-empty, undo then redo gives back the exact history: both stacks, the surface and both flags. |
| `UndoHistory.RedoThenUndo` | app.js:108-133 | When the buttons agree and the redo stack is non-empty, redo then undo gives back the exact history. |
| `UndoHistory.UndoTimes` | app.js:108-119 | After k undo clicks the undo stack has lost min(k, its size) snapshots. The total count and the button invariant are kept. |
| `UndoHistory.RedoTimes` | app.js:122-133 | After k redo clicks the redo stack has lost min(k, its size) snapshots. The total count and the button invariant are kept. |
| `UndoHistory.UndoTimesConservesSnapshots` | app.js:108-119 | Any number of undo clicks keeps the multiset of snapshots. |
| `UndoHistory.RedoTimesConservesSnapshots` | app.js:122-133 | Any number of redo clicks keeps the multiset of snapshots. |
| `UndoHistory.UndoTimesLast` | app.js:108-119 | k + 1 undo clicks are k undo clicks followed by one more. |
| `UndoHistory.RedoTimesLast` | app.js:122-133 | k + 1 redo clicks are k redo clicks followed by one more. |
| `UndoHistory.UndosThenRedosRestore` | app.js:108-133 | Any k undos the undo stack can serve, followed by k redos, restore the exact history. This needs the buttons to agree with the stacks. |
| `UndoHistory.RedosThenUndosRestore` | app.js:108-133 | Any k redos the redo stack can serve, followed by k undos, restore the exact history. |
| `DrawingSession.Init` | app.js:168-169 | Start-up leaves the blank surface as the only undo snapshot and the redo stack empty. The buttons agree with the stacks whatever the page's initial flags were. The session is not drawing, is in draw mode, and has an empty path. |
| `DrawingSession.StartDrawing` | app.js:55-61 | Sets the drawing flag and starts the path at the event's point (an empty path when the point cannot be read). The history, mode, pen and tool values are untouched. |
| `DrawingSession.StrokePen` | app.js:67-80 | The pen always gets the brush size as width and a round cap. Erase mode sets `destination-out` and keeps the old stroke colour. Draw mode sets `source-over` with the current colour. |
| `DrawingSession.Draw` | app.js:64-82 | Does nothing when not drawing or when the point cannot be read. Never touches the stacks or the buttons. Otherwise the point is appended to the path, the pen is set for the mode, and the surface becomes the painted path. |
| `DrawingSession.StopDrawing` | app.js:85-92 | Does nothing when not drawing. Otherwise it clears the flag, pushes exactly the current surface onto the undo stack, empties the redo stack and leaves the buttons agreeing with the stacks. The surface, path, pen, mode, colour and brush size are untouched. |
| `DrawingSession.SetMode` | app.js:145-155 | The mode buttons change only the mode. The history, drawing flag, path, pen, colour and brush size stay the same. |
| `DrawingSession.UndoRightAfterStroke` | app.js:85-119 | The first undo after a stroke leaves the visible surface as it is and the undo stack as before the stroke. The second undo shows the top of the undo stack from before the stroke. |
| `DrawingSession.Step` | app.js:135-158 | Every user action keeps the buttons agreeing with the stacks. Undo, redo and mode clicks keep the total count. |
| `DrawingSession.StepConservesSnapshots` | app.js:108-155 | One undo, redo or mode click keeps the multiset of snapshots. |
| `DrawingSession.RunKeepsButtonsMatchStacks` | app.js:35-133 | Every sequence of actions keeps each button disabled exactly when its stack is empty. |
| `DrawingSession.ButtonsMatchStacksAfterStartUp` | app.js:135-169 | From start-up on, whatever the user does, each button is disabled exactly when its stack is empty. |
| `DrawingSession.NavigationConservesSnapshots` | app.js:108-155 | Any sequence of undo, redo and mode clicks keeps the total count and the multiset of snapshots. |
| `DrawingSession.RunAppend` | app.js:135-143 | Running two action sequences one after the other is running their concatenation. |
| `DrawingSession.MovesKeepHistory` | app.js:64-82 | During a stroke, any number of pointer moves keep the drawing flag, both stacks and both button flags. |
| `DrawingSession.StrokeClearsRedo` | app.js:55-92 | A completed stroke with any number of moves ends the stroke and empties the redo stack, whatever was undone before. It pushes exactly the painted surface onto the undo stack, keeps that surface on screen, and leaves the buttons agreeing with the stacks. |
| `DrawingSession.TwoStrokesFromBlank` | app.js:55-92 | After start-up and two complete strokes (press, any moves, release), the undo stack is blank, first result, second result, with the second on screen, the redo stack empty, undo enabled and redo disabled. |
| `DrawingSession.StrokeAfterUndoLosesPicture` | app.js:85-119 | From one stroke `a` on a blank canvas: an undo still shows `a`, and a stroke `c` drawn after it leaves the history as blank plus `c`. The next two undos show `c` and then blank, and `a` (when it differs from both) is no longer held anywhere. |
| `DrawingSession.UndoRedoAfterTwoStrokes` | app.js:108-133 | From there, undos show the second stroke, the first stroke, then blank, and a fourth undo does nothing. Redos show the first stroke and then the second. Three undos followed by three redos restore the history exactly. |
| `App.DrawingApp.constructor` | app.js:168-169 | The new object's state is `Init`: the blank surface saved, and the buttons agreeing with the stacks. |
| `App.DrawingApp.SaveState` | app.js:35-42 | Updates the fields as `UndoHistory.SaveState` says and changes nothing else. |
| `App.DrawingApp.RestoreState` | app.js:45-52 | The snapshot becomes the surface, and only the surface changes. |
| `App.DrawingApp.StartDrawing` | app.js:55-61 | The new state is `DrawingSession.StartDrawing` of the old one. |
| `App.DrawingApp.Draw` | app.js:64-82 | The new state is `DrawingSession.Draw` of the old one, painted with the object's `paint`. |
| `App.DrawingApp.StopDrawing` | app.js:85-92 | The new state is `DrawingSession.StopDrawing` of the old one. After a stroke, the undo stack is the old one plus the old surface and the buttons agree. |
| `App.DrawingApp.Undo` | app.js:108-119 | Updates the history as `UndoHistory.Undo` says, leaves everything else alone, and keeps the buttons agreeing with the stacks. |
| `App.DrawingApp.Redo` | app.js:122-133 | Updates the history as `UndoHistory.Redo` says, leaves everything else alone, and keeps the buttons agreeing with the stacks. |
| `App.DrawingApp.SelectDrawMode` | app.js:145-149 | Only the mode changes, to draw. |
| `App.DrawingApp.SelectEraseMode` | app.js:151-155 | Only the mode changes, to erase. |
| `App.StrokeUndoRedo` | app.js:55-133 | A client of the class: after a stroke, an undo and a redo, the history is the old undo stack plus the painted surface, with that surface on screen, the redo stack empty, undo enabled and redo disabled. The buttons agree with the stacks at the end. |

## Left out

- `resizeCanvas` (app.js:12-23): window and toolbar sizes and `getImageData`/`putImageData` are browser I/O. Resizing also resets the context settings; the model does not capture that.
- The asynchronous restore (app.js:45-52): the image decode and the `onload` redraw happen after the handler returns. Overlapping restores can race, and a snapshot taken before the redraw captures the old picture. The model restores synchronously, so it does not capture that race.
- Pixel rendering and image encoding (`ctx.stroke`, `clearRect`, `drawImage`, `toDataURL`) are platform calls. The surface is an opaque value and painting is the `paint` parameter.
- `closePath` (app.js:88) only marks the path closed. Nothing is stroked after it, and the next `startDrawing` begins a new path, so the model leaves the path as it is.
- `event.preventDefault()` (app.js:60, 81): browser default-action handling.
- DOM lookups, `classList` styling and listener registration (app.js:1-9, 136-158): UI glue. `DrawingSession.Step` stands for the dispatch. It assumes a disabled button delivers no click.
- The colour and brush-size `change` handlers (app.js:160-166): UI glue. The colour and brush size are read once at start-up and are opaque strings. The brush size reaches `lineWidth` unchanged, without the number conversion the canvas applies.
- The context's initial settings (`DefaultPen`: `source-over`, black, width "1", butt cap) are the platform's defaults. They do not come from app.js.
- Fractional client coordinates: positions are integers, not floating point.
- `currentMode` is a string in the source, and `draw` treats anything other than "erase" as drawing. Only the two mode buttons ever set it, so the model uses a two-valued `Mode`.
