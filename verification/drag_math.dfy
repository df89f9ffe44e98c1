/** The per-sample arithmetic of a drag reference: page positions, the pickup
    offset inside the element, axis locking, boundary clamping and the
    thresholded pointer-direction delta. */
module DragMath {
  import opened Common
  import opened Geometry

  /** `lockAxis`: `'x'`, `'y'` or unset. */
  datatype Axis = NoLock | LockX | LockY

  /** `_getPointerPositionOnPage`: the event's page coordinates minus the
      scroll position captured when the sequence started. */
  function PositionOnPage(page: Point, scroll: Point): (r: Point)
    ensures r.x + scroll.x == page.x && r.y + scroll.y == page.y
  {
    Sub(page, scroll)
  }

  /** `_getPointerPositionInElement`: computed through the rectangle of the
      reference element (the root or the handle that was pressed), but the
      reference rectangle cancels out, so the result is the pointer's offset
      from the root element's corner whatever handle was used. */
  function PointerInElement(page: Point, scroll: Point, rootRect: Rect, referenceRect: Rect): (r: Point)
    ensures r.x == page.x - rootRect.left - scroll.x
    ensures r.y == page.y - rootRect.top - scroll.y
  {
    var x := page.x - referenceRect.left - scroll.x;
    var y := page.y - referenceRect.top - scroll.y;
    Point(referenceRect.left - rootRect.left + x, referenceRect.top - rootRect.top + y)
  }

  /** Axis lock: `'x'` pins y to the pickup y, `'y'` pins x to the pickup x. */
  function LockToAxis(p: Point, pickup: Point, lock: Axis): (r: Point)
    ensures lock == LockX ==> r == Point(p.x, pickup.y)
    ensures lock == LockY ==> r == Point(pickup.x, p.y)
    ensures lock == NoLock ==> r == p
  {
    match lock
    case LockX => p.(y := pickup.y)
    case LockY => p.(x := pickup.x)
    case NoLock => p
  }

  /** The interval the boundary allows on the x axis for a preview of the
      given width picked up `pickupX` pixels from its left edge. */
  function MinX(boundary: Rect, pickupX: int): int { boundary.left + pickupX }
  function MaxX(boundary: Rect, preview: Rect, pickupX: int): int { boundary.Right() - (preview.width - pickupX) }
  function MinY(boundary: Rect, pickupY: int): int { boundary.top + pickupY }
  function MaxY(boundary: Rect, preview: Rect, pickupY: int): int { boundary.Bottom() - (preview.height - pickupY) }

  /** `_getConstrainedPointerPosition`. Without a boundary rectangle the
      locked position passes through. With one, each coordinate is clamped to
      the interval that keeps the preview inside the boundary. A boundary
      rectangle with no preview rectangle recorded reads a property of
      `undefined` and throws. */
  function Constrain(pos: Point, pickupOnPage: Point, lock: Axis, boundary: Option<Rect>,
                     preview: Option<Rect>, pickupInElement: Point): (r: Result<Point, Fault>)
    ensures boundary.None? ==> r.Success? && r.value == LockToAxis(pos, pickupOnPage, lock)
    ensures boundary.Some? && preview.None? ==> r.Failure?
    ensures boundary.Some? && preview.Some? ==> r.Success?
    ensures boundary.Some? && preview.Some? ==>
              var b, pr, p := boundary.value, preview.value, pickupInElement;
              var lo := LockToAxis(pos, pickupOnPage, lock);
              && r.value.x == Clamp(lo.x, MinX(b, p.x), MaxX(b, pr, p.x))
              && r.value.y == Clamp(lo.y, MinY(b, p.y), MaxY(b, pr, p.y))
  {
    var locked := LockToAxis(pos, pickupOnPage, lock);
    match boundary
    case None => Success(locked)
    case Some(b) =>
      match preview
      case None => Failure(TypeError("previewRect is undefined"))
      case Some(pr) =>
        var p := pickupInElement;
        Success(Point(Clamp(locked.x, MinX(b, p.x), MaxX(b, pr, p.x)),
                      Clamp(locked.y, MinY(b, p.y), MaxY(b, pr, p.y))))
  }

  /** The clamp does what it is for: when the preview fits inside the
      boundary, the preview's box placed at the constrained pointer (offset
      by the pickup point) lies inside the boundary on both axes. */
  lemma ConstrainKeepsPreviewInside(pos: Point, pickupOnPage: Point, lock: Axis, b: Rect, pr: Rect, p: Point)
    requires pr.width <= b.width && pr.height <= b.height
    ensures var r := Constrain(pos, pickupOnPage, lock, Some(b), Some(pr), p).value;
            && b.left <= r.x - p.x && r.x - p.x + pr.width <= b.Right()
            && b.top <= r.y - p.y && r.y - p.y + pr.height <= b.Bottom()
  {
  }

  /** The thresholded direction tracker: the last reported direction per
      axis and the position where that axis last changed direction. */
  datatype DirectionState = DirectionState(delta: Point, lastChange: Point)

  predicate IsUnit(v: int) { v == -1 || v == 0 || v == 1 }

  predicate UnitDelta(st: DirectionState) { IsUnit(st.delta.x) && IsUnit(st.delta.y) }

  /** One axis of `_updatePointerDirectionDelta`. */
  function AxisDelta(delta: int, last: int, v: int, threshold: int): (r: (int, int))
    ensures r.0 != delta || r.1 != last ==> Abs(v - last) > threshold
    ensures Abs(v - last) > threshold ==> r.1 == v && (r.0 == 1 <==> v > last) && (r.0 == -1 <==> v <= last)
    ensures Abs(v - last) <= threshold ==> r == (delta, last)
  {
    if Abs(v - last) > threshold then (if v > last then 1 else -1, v) else (delta, last)
  }

  /** `_updatePointerDirectionDelta`: each axis flips to +1/-1 only when the
      pointer has moved strictly more than the threshold on that axis since
      that axis last changed, and only that axis's reference is reset. */
  function UpdateDelta(st: DirectionState, p: Point, threshold: int): (r: DirectionState)
    ensures UnitDelta(st) ==> UnitDelta(r)
    ensures Abs(p.x - st.lastChange.x) <= threshold ==> r.delta.x == st.delta.x && r.lastChange.x == st.lastChange.x
    ensures Abs(p.y - st.lastChange.y) <= threshold ==> r.delta.y == st.delta.y && r.lastChange.y == st.lastChange.y
    ensures Abs(p.x - st.lastChange.x) > threshold ==> r.lastChange.x == p.x && r.delta.x == (if p.x > st.lastChange.x then 1 else -1)
    ensures Abs(p.y - st.lastChange.y) > threshold ==> r.lastChange.y == p.y && r.delta.y == (if p.y > st.lastChange.y then 1 else -1)
  {
    var (dx, lx) := AxisDelta(st.delta.x, st.lastChange.x, p.x, threshold);
    var (dy, ly) := AxisDelta(st.delta.y, st.lastChange.y, p.y, threshold);
    DirectionState(Point(dx, dy), Point(lx, ly))
  }

  /** The tracker after a whole sequence of constrained samples. */
  function Track(st: DirectionState, samples: seq<Point>, threshold: int): DirectionState
    decreases |samples|
  {
    if |samples| == 0 then st else Track(UpdateDelta(st, samples[0], threshold), samples[1..], threshold)
  }

  /** The tracker starts at {0,0} and every component stays in {-1,0,1}. */
  lemma {:induction false} TrackStaysUnit(st: DirectionState, samples: seq<Point>, threshold: int)
    requires UnitDelta(st)
    ensures UnitDelta(Track(st, samples, threshold))
    decreases |samples|
  {
    if |samples| > 0 {
      TrackStaysUnit(UpdateDelta(st, samples[0], threshold), samples[1..], threshold);
    }
  }

  /** Jitter filter: samples that all stay within the threshold of the
      reference point on both axes leave the tracker exactly as it was. */
  lemma {:induction false} JitterIgnored(st: DirectionState, samples: seq<Point>, threshold: int)
    requires forall i :: 0 <= i < |samples| ==>
               Abs(samples[i].x - st.lastChange.x) <= threshold && Abs(samples[i].y - st.lastChange.y) <= threshold
    ensures Track(st, samples, threshold) == st
    decreases |samples|
  {
    if |samples| > 0 {
      assert UpdateDelta(st, samples[0], threshold) == st;
      JitterIgnored(st, samples[1..], threshold);
    }
  }

  /** A move reaches the drag-start threshold when its Manhattan distance
      from the pickup point is at least the threshold. */
  predicate ReachesStartThreshold(pos: Point, pickup: Point, threshold: int)
  {
    Manhattan(pos, pickup) >= threshold
  }
}
