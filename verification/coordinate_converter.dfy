/** Conversion of a window frame from Cocoa coordinates (origin at the
    bottom-left, y upward) to Accessibility coordinates (origin at the
    top-left, y downward) (Sources/WManager/WindowCoordinateConverter.swift). */
module CoordinateConverter {
  import opened Rects

  /** `axFrame(fromCocoa:in:)`: the distance of the frame's top edge below
      the screen's top edge becomes its y; nothing else changes. */
  function AxFrame(frame: Rect, screen: Rect): (r: Rect)
    ensures r.x == frame.x && r.width == frame.width && r.height == frame.height
    ensures r.MinY() + frame.MaxY() == screen.MaxY()
  {
    Rect(frame.MinX(), screen.MaxY() - frame.MaxY(), frame.width, frame.height)
  }

  /** The flip is its own inverse on a fixed screen. */
  lemma AxFrameInvolution(frame: Rect, screen: Rect)
    ensures AxFrame(AxFrame(frame, screen), screen) == frame
  {
  }

  /** A frame flush with the top of the screen gets y = 0, and one flush
      with the bottom gets y = screen height minus its own height, when the
      screen's origin is at 0. */
  lemma AxFrameEdges(frame: Rect, screen: Rect)
    ensures frame.MaxY() == screen.MaxY() ==> AxFrame(frame, screen).y == 0.0
    ensures frame.MinY() == screen.MinY() && screen.y == 0.0 ==>
      AxFrame(frame, screen).y == screen.height - frame.height
  {
  }

  /** The flip reverses vertical order: a frame whose top is higher in
      Cocoa coordinates has the smaller y afterwards. */
  lemma AxFrameReversesOrder(a: Rect, b: Rect, screen: Rect)
    requires a.MaxY() > b.MaxY()
    ensures AxFrame(a, screen).y < AxFrame(b, screen).y
  {
  }
}
