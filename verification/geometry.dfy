/** Points, rectangles and the clamping helper of draggable-ref.ts, over
    integer page coordinates. */
module Geometry {

  /** A point on the page or inside an element. */
  datatype Point = Point(x: int, y: int)

  /** An element's bounding box; `right` and `bottom` are derived as the
      browser derives them. */
  datatype Rect = Rect(left: int, top: int, width: int, height: int) {
    function Right(): int { left + width }
    function Bottom(): int { top + height }
  }

  const Origin := Point(0, 0)

  function Abs(v: int): (r: nat)
    ensures r == v || r == -v
  {
    if v < 0 then -v else v
  }

  function Min(a: int, b: int): (r: int)
    ensures r <= a && r <= b && (r == a || r == b)
  {
    if a <= b then a else b
  }

  function Max(a: int, b: int): (r: int)
    ensures r >= a && r >= b && (r == a || r == b)
  {
    if a >= b then a else b
  }

  /** `clamp(value, min, max)` is `Math.max(min, Math.min(max, value))`: it
      lands in `[lo, hi]` when that interval is non-empty, leaves a value
      already inside it alone, and yields `lo` when `lo > hi`. */
  function Clamp(v: int, lo: int, hi: int): (r: int)
    ensures lo <= hi ==> lo <= r <= hi
    ensures lo <= v <= hi ==> r == v
    ensures lo > hi ==> r == lo
    ensures v < lo ==> r == lo
    ensures lo <= hi < v ==> r == hi
  {
    Max(lo, Min(hi, v))
  }

  /** Manhattan distance between two points. */
  function Manhattan(a: Point, b: Point): (r: nat)
    ensures r == 0 <==> a == b
  {
    Abs(a.x - b.x) + Abs(a.y - b.y)
  }

  function Sub(a: Point, b: Point): Point { Point(a.x - b.x, a.y - b.y) }
}
