/** The rotation and segment-display state of the sketch: the per-frame
    angle update of `draw`, the recomputation of the current segment, the
    container refresh `updateContainers`, and the mouse and touch handlers.
    The page's `container-<k>-top` and `container-<k>-bottom` elements are
    modelled by two arrays of `active` flags: entry `i` is the element for
    `k = i + 1`, and an index past the end of an array is an element the page
    does not have, on which the sketch does nothing. */
module Rotation {
  import opened Angles

  class RotationController {
    /** `totalSegments`. */
    const segments: int
    /** `rotationSpeed`, radians per frame. */
    const speed: real
    /** `totalRotation`, the full turn `2 * Math.PI`. */
    const turn: real
    /** The `active` flags of the top and bottom containers. */
    const top: array<bool>
    const bottom: array<bool>

    var autoRotate: bool
    var isDragging: bool
    var lastMouseX: real
    var currentAngle: real
    var currentSegment: int
    var previousSegment: int
    /** The segments `updateContainers` has been called with, in order. */
    ghost var refreshes: seq<int>

    /** Every segment pair is shown exactly when it is the current one and
        the view is no longer auto-rotating. */
    ghost predicate Shown()
      reads this, top, bottom
    {
      (forall i :: 0 <= i < segments && i < top.Length ==> top[i] == (!autoRotate && i == currentSegment)) &&
      (forall i :: 0 <= i < segments && i < bottom.Length ==> bottom[i] == (!autoRotate && i == currentSegment))
    }

    ghost predicate Valid()
      reads this, top, bottom
    {
      segments > 0 && turn > 0.0 && speed >= 0.0 && top != bottom &&
      0 <= currentSegment < segments &&
      (isDragging ==> !autoRotate) &&
      (autoRotate ==> 0.0 <= currentAngle < turn) &&
      (previousSegment == -1 || (previousSegment == currentSegment && refreshes != [])) &&
      (refreshes != [] ==> Shown())
    }

    /** The sketch's initial state: auto-rotating from angle zero, segment 0,
        no segment displayed yet. */
    constructor (segments: int, speed: real, turn: real, top: array<bool>, bottom: array<bool>)
      requires segments > 0 && turn > 0.0 && speed >= 0.0 && top != bottom
      ensures Valid()
      ensures this.segments == segments && this.speed == speed && this.turn == turn
      ensures this.top == top && this.bottom == bottom
      ensures autoRotate && !isDragging && lastMouseX == 0.0 && currentAngle == 0.0
      ensures currentSegment == 0 && previousSegment == -1 && refreshes == []
    {
      this.segments, this.speed, this.turn := segments, speed, turn;
      this.top, this.bottom := top, bottom;
      autoRotate, isDragging, lastMouseX, currentAngle := true, false, 0.0, 0.0;
      currentSegment, previousSegment := 0, -1;
      refreshes := [];
    }

    /** `updateContainers(segment)`: deactivate the containers of every
        segment, then, unless auto-rotating, activate the pair of `segment`. */
    method UpdateContainers(segment: int)
      requires segments > 0 && top != bottom
      modifies this`refreshes, top, bottom
      ensures refreshes == old(refreshes) + [segment]
      ensures forall i :: 0 <= i < top.Length ==>
        top[i] == ((!autoRotate && i == segment) || (segments <= i && old(top[i])))
      ensures forall i :: 0 <= i < bottom.Length ==>
        bottom[i] == ((!autoRotate && i == segment) || (segments <= i && old(bottom[i])))
    {
      refreshes := refreshes + [segment];
      for i := 0 to segments
        invariant refreshes == old(refreshes) + [segment]
        invariant forall j :: 0 <= j < top.Length ==> top[j] == (j >= i && old(top[j]))
        invariant forall j :: 0 <= j < bottom.Length ==> bottom[j] == (j >= i && old(bottom[j]))
      {
        if i < top.Length {
          top[i] := false;
        }
        if i < bottom.Length {
          bottom[i] := false;
        }
      }
      if autoRotate {
        return;
      }
      if 0 <= segment < top.Length {
        top[segment] := true;
      }
      if 0 <= segment < bottom.Length {
        bottom[segment] := true;
      }
    }

    /** One frame of `draw`: advance or drag the angle, recompute the current
        segment, and refresh the containers only when the segment changed. */
    method Draw(mouseX: real)
      requires Valid()
      modifies this, top, bottom
      ensures Valid()
      ensures autoRotate == old(autoRotate) && isDragging == old(isDragging)
      ensures currentAngle ==
        if old(autoRotate) then AutoAdvance(old(currentAngle), speed, turn)
        else if old(isDragging) then Dragged(old(currentAngle), old(lastMouseX), mouseX)
        else old(currentAngle)
      ensures lastMouseX == if !old(autoRotate) && old(isDragging) then mouseX else old(lastMouseX)
      ensures currentSegment == SegmentOf(currentAngle, turn, segments)
      ensures previousSegment == currentSegment
      ensures refreshes == old(refreshes) + if currentSegment != old(previousSegment) then [currentSegment] else []
      ensures currentSegment == old(previousSegment) ==> top[..] == old(top[..]) && bottom[..] == old(bottom[..])
      ensures Shown()
      ensures forall i :: segments <= i < top.Length ==> top[i] == old(top[i])
      ensures forall i :: segments <= i < bottom.Length ==> bottom[i] == old(bottom[i])
    {
      if autoRotate {
        currentAngle := currentAngle + speed;
        if currentAngle >= turn {
          currentAngle := 0.0;
        }
      } else if isDragging {
        var deltaX := mouseX - lastMouseX;
        currentAngle := currentAngle + deltaX * DragFactor;
        lastMouseX := mouseX;
      }
      currentSegment := SegmentOf(currentAngle, turn, segments);
      if currentSegment != previousSegment {
        UpdateContainers(currentSegment);
        previousSegment := currentSegment;
      }
    }

    /** `mousePressed`: stop auto-rotating for good, start a drag at `mouseX`
        and show the current segment's pair. */
    method MousePressed(mouseX: real)
      requires Valid()
      modifies this, top, bottom
      ensures Valid()
      ensures !autoRotate && isDragging && lastMouseX == mouseX
      ensures currentAngle == old(currentAngle) && currentSegment == old(currentSegment)
      ensures previousSegment == old(previousSegment)
      ensures refreshes == old(refreshes) + [currentSegment]
      ensures forall i :: 0 <= i < segments && i < top.Length ==> top[i] == (i == currentSegment)
      ensures forall i :: 0 <= i < segments && i < bottom.Length ==> bottom[i] == (i == currentSegment)
      ensures forall i :: segments <= i < top.Length ==> top[i] == old(top[i])
      ensures forall i :: segments <= i < bottom.Length ==> bottom[i] == old(bottom[i])
    {
      autoRotate := false;
      isDragging := true;
      lastMouseX := mouseX;
      UpdateContainers(currentSegment);
    }

    /** `touchStarted`: the same as a press, at the first touch's position. */
    method TouchStarted(touchX: real)
      requires Valid()
      modifies this, top, bottom
      ensures Valid()
      ensures !autoRotate && isDragging && lastMouseX == touchX
      ensures currentAngle == old(currentAngle) && currentSegment == old(currentSegment)
      ensures previousSegment == old(previousSegment)
      ensures refreshes == old(refreshes) + [currentSegment]
      ensures forall i :: 0 <= i < segments && i < top.Length ==> top[i] == (i == currentSegment)
      ensures forall i :: 0 <= i < segments && i < bottom.Length ==> bottom[i] == (i == currentSegment)
      ensures forall i :: segments <= i < top.Length ==> top[i] == old(top[i])
      ensures forall i :: segments <= i < bottom.Length ==> bottom[i] == old(bottom[i])
    {
      MousePressed(touchX);
    }

    /** `mouseReleased`: end the drag; nothing else changes, so auto-rotation
        stays off once a press has stopped it. */
    method MouseReleased()
      requires Valid()
      modifies this`isDragging
      ensures Valid()
      ensures !isDragging
    {
      isDragging := false;
    }

    /** `touchEnded`: the same as a release. */
    method TouchEnded()
      requires Valid()
      modifies this`isDragging
      ensures Valid()
      ensures !isDragging
    {
      MouseReleased();
    }

    /** `touchMoved`: while dragging, turn the view by the movement since the
        last recorded position and record the new one. */
    method TouchMoved(touchX: real)
      requires Valid()
      modifies this`currentAngle, this`lastMouseX
      ensures Valid()
      ensures currentAngle == if isDragging then Dragged(old(currentAngle), old(lastMouseX), touchX) else old(currentAngle)
      ensures lastMouseX == if isDragging then touchX else old(lastMouseX)
    {
      if isDragging {
        var deltaX := touchX - lastMouseX;
        currentAngle := currentAngle + deltaX * DragFactor;
        lastMouseX := touchX;
      }
    }
  }

  /** A press at x = 100, a touch move to x = 150 and one frame: the view has
      turned by 0.25 radians, stays in segment 0, auto-rotation is off and
      the first segment's pair is shown. */
  method PressAndDrag() returns (angle: real, autoRotating: bool, segment: int, shown: bool)
    ensures angle == 0.25 && !autoRotating && segment == 0 && shown
  {
    var top := new bool[10];
    var bottom := new bool[10];
    var view := new RotationController(10, 0.003, 6.283185307179586, top, bottom);
    view.MousePressed(100.0);
    view.TouchMoved(150.0);
    view.Draw(150.0);
    NormalizeKeepsTurn(0.25, 6.283185307179586);
    SegmentBounds(0.25, 6.283185307179586, 10, 0);
    angle, autoRotating, segment, shown := view.currentAngle, view.autoRotate, view.currentSegment, top[0];
  }
}
