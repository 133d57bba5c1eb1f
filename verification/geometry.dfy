/** Integer screen geometry with the semantics of `System.Drawing.Point` and
    `System.Drawing.Rectangle`: a rectangle is an origin plus a width and a
    height, it contains a point half-open (left and top edges in, right and
    bottom edges out), and it is "empty" only when all four fields are zero. */
module Geometry {

  import opened Common

  datatype Point = Point(x: int, y: int)

  datatype Rect = Rect(x: int, y: int, width: int, height: int) {

    function Left(): int { x }

    function Top(): int { y }

    function Right(): int { x + width }

    function Bottom(): int { y + height }

    /** `Rectangle.IsEmpty`: true only for the all-zero rectangle. */
    predicate IsEmpty() { x == 0 && y == 0 && width == 0 && height == 0 }

    /** `Rectangle.Contains(Point)`: half-open on both axes. */
    predicate Contains(p: Point) {
      x <= p.x < x + width && y <= p.y < y + height
    }

    /** This rectangle lies within `outer` (edges may touch). */
    predicate Within(outer: Rect) {
      outer.Left() <= Left() && Right() <= outer.Right() &&
      outer.Top() <= Top() && Bottom() <= outer.Bottom()
    }
  }

  const Empty: Rect := Rect(0, 0, 0, 0)

  /** `Rectangle.Intersect(a, b)`: the overlap of the two rectangles when the
      overlap interval on each axis is non-negative (touching edges give a
      zero-width or zero-height result), otherwise `Rectangle.Empty`. */
  function Intersect(a: Rect, b: Rect): (r: Rect)
    ensures forall p :: r.Contains(p) <==> a.Contains(p) && b.Contains(p)
    ensures r.width >= 0 && r.height >= 0
    ensures r == Empty || (r.Within(a) && r.Within(b))
  {
    var x1 := Max(a.Left(), b.Left());
    var x2 := Min(a.Right(), b.Right());
    var y1 := Max(a.Top(), b.Top());
    var y2 := Min(a.Bottom(), b.Bottom());
    if x2 >= x1 && y2 >= y1 then Rect(x1, y1, x2 - x1, y2 - y1) else Empty
  }
}
