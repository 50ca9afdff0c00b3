/**
 * Input normalisation for the drawing canvas: mouse and touch events are
 * mapped to a point in canvas-local coordinates.
 *
 * Client positions are integers here; the browser reports them as
 * floating-point numbers.
 */
module Pointer {

  datatype Option<+T> = None | Some(value: T)

  /** One touch contact, at a client-space position. */
  datatype Touch = Touch(clientX: int, clientY: int)

  /**
   * A pointer event. `touches` is `None` for a mouse event (the property is
   * absent) and `Some(list)` for a touch event, even when the list is empty.
   */
  datatype Event = Event(clientX: int, clientY: int, touches: Option<seq<Touch>>)

  /** The canvas element's `offsetLeft` and `offsetTop`. */
  datatype Offset = Offset(left: int, top: int)

  /** A point in canvas-local coordinates. */
  datatype Point = Point(x: int, y: int)

  /**
   * The canvas-local position of an event: the client position minus the
   * canvas offset, taken from the first touch when the event carries a touch
   * list. A touch list that is present but empty has no first touch; reading
   * its position raises an error in the source, which is `None` here.
   */
  function GetCoordinates(e: Event, canvas: Offset): (r: Option<Point>)
    ensures r.None? <==> e.touches == Some([])
    ensures r.Some? && e.touches.None? ==>
      r.value.x + canvas.left == e.clientX && r.value.y + canvas.top == e.clientY
    ensures r.Some? && e.touches.Some? ==>
      r.value.x + canvas.left == e.touches.value[0].clientX &&
      r.value.y + canvas.top == e.touches.value[0].clientY
  {
    match e.touches
    case Some(ts) =>
      if |ts| == 0 then None
      else Some(Point(ts[0].clientX - canvas.left, ts[0].clientY - canvas.top))
    case None =>
      Some(Point(e.clientX - canvas.left, e.clientY - canvas.top))
  }

  /** Moving the canvas and the pointer by the same amount yields the same point. */
  lemma TranslationInvariant(e: Event, canvas: Offset, dx: int, dy: int)
    ensures GetCoordinates(Shift(e, dx, dy), Offset(canvas.left + dx, canvas.top + dy))
         == GetCoordinates(e, canvas)
  {
  }

  /** `e` with its own position and every touch moved by (dx, dy). */
  function Shift(e: Event, dx: int, dy: int): (r: Event)
    ensures r.touches.None? <==> e.touches.None?
    ensures r.touches.Some? ==> |r.touches.value| == |e.touches.value|
  {
    Event(e.clientX + dx, e.clientY + dy,
      match e.touches
      case None => None
      case Some(ts) => Some(seq(|ts|, i requires 0 <= i < |ts| => Touch(ts[i].clientX + dx, ts[i].clientY + dy))))
  }

  /**
   * For a touch event only the first contact matters: the event's own
   * client position and any further touches are ignored.
   */
  lemma FirstTouchDecides(e1: Event, e2: Event, canvas: Offset)
    requires e1.touches.Some? && e2.touches.Some?
    requires |e1.touches.value| > 0 && |e2.touches.value| > 0
    requires e1.touches.value[0] == e2.touches.value[0]
    ensures GetCoordinates(e1, canvas) == GetCoordinates(e2, canvas)
  {
  }
}
