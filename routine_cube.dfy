/**
 * A cube's own drag handling: a press outside the resize handle starts a
 * drag, each move sends a clamped position to the routine editor, and a
 * release ends the drag.
 */
module RoutineCube {
  import opened Wrappers
  import opened CreateRoutine

  /** `Math.max(0, Math.min(v, hi))`. */
  function Clamp(v: int, hi: int): (r: int)
    ensures r >= 0
    ensures hi >= 0 ==> r <= hi
    ensures 0 <= v <= hi ==> r == v
    ensures v < 0 ==> r == 0
    ensures v > hi ==> r == (if hi > 0 then hi else 0)
  {
    var m := if v < hi then v else hi;
    if 0 > m then 0 else m
  }

  /** Clamping twice is clamping once. */
  lemma ClampIdempotent(v: int, hi: int)
    ensures Clamp(Clamp(v, hi), hi) == Clamp(v, hi)
  {
  }

  /** The rectangle `getBoundingClientRect` reports. */
  datatype Rect = Rect(left: int, top: int, width: int, height: int)

  /** The position `handleDragMove` sends: the pointer less the grab offset, clamped to the canvas. */
  function DraggedPosition(clientX: int, clientY: int, canvas: Rect, grab: Position, size: Size): (p: Position)
    ensures p.x >= 0 && p.y >= 0
    ensures canvas.width >= size.width ==> p.x + size.width <= canvas.width
    ensures canvas.height >= size.height ==> p.y + size.height <= canvas.height
  {
    Position(Clamp(clientX - canvas.left - grab.x, canvas.width - size.width),
             Clamp(clientY - canvas.top - grab.y, canvas.height - size.height))
  }

  /** A position update and nothing else. */
  function PositionUpdate(p: Position): (u: CubeUpdate)
    ensures u.position == Some(p)
    ensures u.id.None? && u.kind.None? && u.title.None? && u.size.None? && u.config.None?
  {
    NoChange.(position := Some(p))
  }

  /** `handleTitleChange`: a title update and nothing else. */
  function TitleUpdate(title: string): (u: CubeUpdate)
    ensures u.title == Some(title)
    ensures u.id.None? && u.kind.None? && u.position.None? && u.size.None? && u.config.None?
  {
    NoChange.(title := Some(title))
  }

  /** Dropping a cube where it lies inside the canvas keeps every other field of the cube. */
  lemma DragMovesOnly(c: Cube, clientX: int, clientY: int, canvas: Rect, grab: Position)
    ensures var m := Merge(c, PositionUpdate(DraggedPosition(clientX, clientY, canvas, grab, c.size)));
            m.(position := c.position) == c
  {
  }

  class CubeDrag {
    var isDragging: bool
    /** The pointer's offset within the cube when the drag began. */
    var dragStart: Position

    constructor ()
      ensures !isDragging && dragStart == Position(0, 0)
    {
      isDragging := false;
      dragStart := Position(0, 0);
    }

    /** `handleDragStart`: a press on the resize handle is ignored; any other starts a drag. */
    method HandleDragStart(onResizeHandle: bool, clientX: int, clientY: int, cube: Rect)
      modifies this
      ensures onResizeHandle ==> isDragging == old(isDragging) && dragStart == old(dragStart)
      ensures !onResizeHandle ==> isDragging && dragStart == Position(clientX - cube.left, clientY - cube.top)
    {
      if onResizeHandle {
        return;
      }
      isDragging := true;
      dragStart := Position(clientX - cube.left, clientY - cube.top);
    }

    /** `handleDragMove`: while dragging, the update for `onUpdate`; otherwise none. */
    method HandleDragMove(clientX: int, clientY: int, canvas: Rect, size: Size) returns (update: Option<CubeUpdate>)
      ensures update.None? <==> !isDragging
      ensures update.Some? ==> update.value == PositionUpdate(DraggedPosition(clientX, clientY, canvas, dragStart, size))
      ensures update.Some? ==> update.value.position.value.x >= 0 && update.value.position.value.y >= 0
    {
      if !isDragging {
        return None;
      }
      var newX := clientX - canvas.left - dragStart.x;
      var newY := clientY - canvas.top - dragStart.y;
      update := Some(PositionUpdate(Position(Clamp(newX, canvas.width - size.width), Clamp(newY, canvas.height - size.height))));
    }

    /** `handleDragEnd`. */
    method HandleDragEnd()
      modifies this
      ensures !isDragging && dragStart == old(dragStart)
    {
      isDragging := false;
    }
  }
}
