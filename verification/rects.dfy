/** `CGRect` over exact reals, in the Cocoa convention: `(x, y)` is the
    bottom-left corner and y grows upward. */
module Rects {
  import Settings

  datatype Rect = Rect(x: real, y: real, width: real, height: real) {
    function MinX(): real { x }
    function MaxX(): real { x + width }
    function MinY(): real { y }
    function MaxY(): real { y + height }
  }

  function Max(a: real, b: real): real { if a < b then b else a }
  function Min(a: real, b: real): real { if a < b then a else b }

  /** `insetBy(dx:dy:)`: shrink by `dx` on the left and right and by `dy`
      at the top and bottom. */
  function InsetBy(r: Rect, dx: real, dy: real): (s: Rect)
    ensures s.MinX() == r.MinX() + dx && s.MaxX() == r.MaxX() - dx
    ensures s.MinY() == r.MinY() + dy && s.MaxY() == r.MaxY() - dy
  {
    Rect(r.x + dx, r.y + dy, r.width - 2.0 * dx, r.height - 2.0 * dy)
  }

  /** The frame less the outer padding on every side: the area that the
      tiles, the slots and the layout grid all divide up. */
  function Content(frame: Rect): Rect {
    InsetBy(frame, Settings.OuterPadding, Settings.OuterPadding)
  }

  /** `union(_:)`: the smallest rectangle containing both. */
  function Union(a: Rect, b: Rect): (u: Rect)
    ensures u.MinX() <= a.MinX() && u.MinX() <= b.MinX()
    ensures u.MaxX() >= a.MaxX() && u.MaxX() >= b.MaxX()
    ensures u.MinY() <= a.MinY() && u.MinY() <= b.MinY()
    ensures u.MaxY() >= a.MaxY() && u.MaxY() >= b.MaxY()
    ensures u.MinX() == a.MinX() || u.MinX() == b.MinX()
    ensures u.MaxX() == a.MaxX() || u.MaxX() == b.MaxX()
    ensures u.MinY() == a.MinY() || u.MinY() == b.MinY()
    ensures u.MaxY() == a.MaxY() || u.MaxY() == b.MaxY()
  {
    var x0 := Min(a.MinX(), b.MinX());
    var y0 := Min(a.MinY(), b.MinY());
    var x1 := Max(a.MaxX(), b.MaxX());
    var y1 := Max(a.MaxY(), b.MaxY());
    Rect(x0, y0, x1 - x0, y1 - y0)
  }

  /** Every edge of `inner` lies within the edges of `outer`. */
  predicate Encloses(outer: Rect, inner: Rect) {
    outer.MinX() <= inner.MinX() && inner.MaxX() <= outer.MaxX()
    && outer.MinY() <= inner.MinY() && inner.MaxY() <= outer.MaxY()
  }
}
