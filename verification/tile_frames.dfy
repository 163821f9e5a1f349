/** The three fixed tiles of the window manager: maximise, left half and
    right half (`TileFrames` in Sources/WManager/WindowManager.swift). */
module TileFrames {
  import opened Rects
  import Settings

  /** `maximized(in:)`: the frame less the outer padding on every side. */
  function Maximized(frame: Rect): (r: Rect)
    ensures r.MinX() == frame.MinX() + Settings.OuterPadding
    ensures r.MaxX() == frame.MaxX() - Settings.OuterPadding
    ensures r.MinY() == frame.MinY() + Settings.OuterPadding
    ensures r.MaxY() == frame.MaxY() - Settings.OuterPadding
  {
    Content(frame)
  }

  function HalfWidth(frame: Rect): real {
    (Content(frame).width - Settings.InnerGap) / 2.0
  }

  /** `halfLeft(in:)`. */
  function HalfLeft(frame: Rect): (r: Rect)
    ensures r.MinX() == Maximized(frame).MinX()
    ensures r.MinY() == Maximized(frame).MinY() && r.height == Maximized(frame).height
  {
    var content := Content(frame);
    Rect(content.MinX(), content.MinY(), HalfWidth(frame), content.height)
  }

  /** `halfRight(in:)`. */
  function HalfRight(frame: Rect): (r: Rect)
    ensures r.MaxX() == Maximized(frame).MaxX()
    ensures r.MinY() == Maximized(frame).MinY() && r.height == Maximized(frame).height
  {
    var content := Content(frame);
    Rect(content.MinX() + HalfWidth(frame) + Settings.InnerGap, content.MinY(), HalfWidth(frame), content.height)
  }

  /** The halves are equally wide, are separated by exactly the inner gap
      and together with it span the maximised frame. */
  lemma HalvesSplitMaximized(frame: Rect)
    ensures HalfLeft(frame).width == HalfRight(frame).width
    ensures HalfLeft(frame).width + Settings.InnerGap + HalfRight(frame).width == Maximized(frame).width
    ensures HalfRight(frame).MinX() == HalfLeft(frame).MaxX() + Settings.InnerGap
  {
  }

  /** On a screen wide enough for the padding and the gap, both halves lie
      within the maximised frame. */
  lemma HalvesInsideMaximized(frame: Rect)
    requires Maximized(frame).width >= Settings.InnerGap && Maximized(frame).height >= 0.0
    ensures Encloses(Maximized(frame), HalfLeft(frame))
    ensures Encloses(Maximized(frame), HalfRight(frame))
  {
  }

  /** The worked example on a 1200 x 800 screen at the origin. */
  lemma TileFramesExample()
    ensures Maximized(Rect(0.0, 0.0, 1200.0, 800.0)) == Rect(8.0, 8.0, 1184.0, 784.0)
    ensures HalfLeft(Rect(0.0, 0.0, 1200.0, 800.0)) == Rect(8.0, 8.0, 588.0, 784.0)
    ensures HalfRight(Rect(0.0, 0.0, 1200.0, 800.0)) == Rect(604.0, 8.0, 588.0, 784.0)
  {
    assert Content(Rect(0.0, 0.0, 1200.0, 800.0)) == Rect(8.0, 8.0, 1184.0, 784.0);
    assert HalfWidth(Rect(0.0, 0.0, 1200.0, 800.0)) == 588.0;
  }
}
