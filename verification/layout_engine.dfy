/** The weighted-grid geometry (Sources/WManager/LayoutEngine.swift): a
    bounding rectangle is inset by the outer padding, and the content is
    split into the active columns (left to right) and active rows (top to
    bottom), proportionally to their weights, with the inner gap between
    neighbours. Only cells whose column and row are both active get a
    frame. */
module LayoutEngine {
  import opened Rects
  import opened Weights
  import opened GridCells
  import Settings

  /** One column (`start` = x, `size` = width) or one row (`start` = y of
      its bottom edge, `size` = height). */
  datatype Span = Span(start: real, size: real)

  /** The length left for `count` active entries once the gaps between
      them are taken out, never negative. */
  function UsableLength(length: real, count: nat): (r: real)
    ensures r >= 0.0
    ensures count > 0 && length >= Settings.InnerGap * (count - 1) as real ==>
      r + Settings.InnerGap * (count - 1) as real == length
  {
    Max(0.0, length - Settings.InnerGap * (count - 1) as real)
  }

  /** The part of `usable` that weight `w` gets out of `total`. */
  function Share(usable: real, w: int, total: real): real
    requires total != 0.0
  {
    usable * (w as real / total)
  }

  /** The column loop: spans laid out left to right from `x`. (The source
      skips the gap after the last column; the running position after the
      last column is never read, so adding it there is unobservable.) */
  function ColumnSpans(ws: seq<int>, x: real, usable: real, total: real): (r: seq<Span>)
    requires total != 0.0
    ensures |r| == |ws|
    ensures |r| > 0 ==> r[0].start == x
    ensures forall j, k {:trigger r[j], r[k]} :: 0 <= j < |r| && k == j + 1 < |r| ==>
      r[k].start == r[j].start + r[j].size + Settings.InnerGap
    decreases |ws|
  {
    if |ws| == 0 then []
    else
      var width := Share(usable, ws[0], total);
      [Span(x, width)] + ColumnSpans(ws[1..], x + width + Settings.InnerGap, usable, total)
  }

  /** The row loop: spans laid out downward from the top edge `top`, so
      the first active row is the highest. */
  function RowSpans(ws: seq<int>, top: real, usable: real, total: real): (r: seq<Span>)
    requires total != 0.0
    ensures |r| == |ws|
    ensures |r| > 0 ==> r[0].start + r[0].size == top
    ensures forall j, k {:trigger r[j], r[k]} :: 0 <= j < |r| && k == j + 1 < |r| ==>
      r[k].start + r[k].size == r[j].start - Settings.InnerGap
    decreases |ws|
  {
    if |ws| == 0 then []
    else
      var height := Share(usable, ws[0], total);
      var y := top - height;
      [Span(y, height)] + RowSpans(ws[1..], y - Settings.InnerGap, usable, total)
  }

  /** Each column is as wide as its weight's share. */
  lemma {:induction false} ColumnSpanSizes(ws: seq<int>, x: real, usable: real, total: real)
    requires total != 0.0
    ensures forall k :: 0 <= k < |ws| ==> ColumnSpans(ws, x, usable, total)[k].size == Share(usable, ws[k], total)
    decreases |ws|
  {
    if |ws| > 0 {
      ColumnSpanSizes(ws[1..], x + Share(usable, ws[0], total) + Settings.InnerGap, usable, total);
    }
  }

  /** Each row is as high as its weight's share. */
  lemma {:induction false} RowSpanSizes(ws: seq<int>, top: real, usable: real, total: real)
    requires total != 0.0
    ensures forall k :: 0 <= k < |ws| ==> RowSpans(ws, top, usable, total)[k].size == Share(usable, ws[k], total)
    decreases |ws|
  {
    if |ws| > 0 {
      RowSpanSizes(ws[1..], top - Share(usable, ws[0], total) - Settings.InnerGap, usable, total);
    }
  }

  function SumSizes(spans: seq<Span>): real {
    if |spans| == 0 then 0.0 else spans[0].size + SumSizes(spans[1..])
  }

  /** The shares of the weights in `ws`, added up one by one. */
  function SumShares(ws: seq<int>, usable: real, total: real): real
    requires total != 0.0
  {
    if |ws| == 0 then 0.0 else Share(usable, ws[0], total) + SumShares(ws[1..], usable, total)
  }

  /** Adding the shares one by one gives the share of the total weight. */
  lemma {:induction false} SumSharesIsShareOfSum(ws: seq<int>, usable: real, total: real)
    requires total != 0.0
    ensures SumShares(ws, usable, total) == usable * (Sum(ws) as real / total)
  {
    if |ws| > 0 {
      SumSharesIsShareOfSum(ws[1..], usable, total);
      DistributeShare(ws[0], Sum(ws[1..]), usable, total);
    } else {
      ZeroShare(usable, total);
    }
  }

  lemma {:induction false} ColumnSizesShares(ws: seq<int>, x: real, usable: real, total: real)
    requires total != 0.0
    ensures SumSizes(ColumnSpans(ws, x, usable, total)) == SumShares(ws, usable, total)
    decreases |ws|
  {
    if |ws| > 0 {
      var w := Share(usable, ws[0], total);
      var rest := ColumnSpans(ws[1..], x + w + Settings.InnerGap, usable, total);
      assert ColumnSpans(ws, x, usable, total)[1..] == rest;
      ColumnSizesShares(ws[1..], x + w + Settings.InnerGap, usable, total);
    }
  }

  lemma {:induction false} RowSizesShares(ws: seq<int>, top: real, usable: real, total: real)
    requires total != 0.0
    ensures SumSizes(RowSpans(ws, top, usable, total)) == SumShares(ws, usable, total)
    decreases |ws|
  {
    if |ws| > 0 {
      var h := Share(usable, ws[0], total);
      var rest := RowSpans(ws[1..], top - h - Settings.InnerGap, usable, total);
      assert RowSpans(ws, top, usable, total)[1..] == rest;
      RowSizesShares(ws[1..], top - h - Settings.InnerGap, usable, total);
    }
  }

  /** The column widths add up to the share of the total weight. */
  lemma ColumnSizesSum(ws: seq<int>, x: real, usable: real, total: real)
    requires total != 0.0
    ensures SumSizes(ColumnSpans(ws, x, usable, total)) == usable * (Sum(ws) as real / total)
  {
    ColumnSizesShares(ws, x, usable, total);
    SumSharesIsShareOfSum(ws, usable, total);
  }

  /** The row heights add up to the share of the total weight. */
  lemma RowSizesSum(ws: seq<int>, top: real, usable: real, total: real)
    requires total != 0.0
    ensures SumSizes(RowSpans(ws, top, usable, total)) == usable * (Sum(ws) as real / total)
  {
    RowSizesShares(ws, top, usable, total);
    SumSharesIsShareOfSum(ws, usable, total);
  }

  lemma ZeroShare(usable: real, total: real)
    requires total != 0.0
    ensures usable * (0 as real / total) == 0.0
  {
  }

  lemma DistributeShare(a: int, b: int, usable: real, total: real)
    requires total != 0.0
    ensures usable * (a as real / total) + usable * (b as real / total)
         == usable * ((a + b) as real / total)
  {
  }

  lemma {:induction false} ColumnSpansEnd(ws: seq<int>, x: real, usable: real, total: real)
    requires total != 0.0 && |ws| > 0
    ensures var r := ColumnSpans(ws, x, usable, total);
      r[|r| - 1].start + r[|r| - 1].size
        == x + SumSizes(r) + Settings.InnerGap * (|r| - 1) as real
    decreases |ws|
  {
    if |ws| > 1 {
      var x' := x + usable * (ws[0] as real / total) + Settings.InnerGap;
      assert ColumnSpans(ws, x, usable, total)[1..] == ColumnSpans(ws[1..], x', usable, total);
      ColumnSpansEnd(ws[1..], x', usable, total);
    }
  }

  lemma MulOne(u: real, t: real)
    requires t != 0.0
    ensures u * (t / t) == u
  {
    DivSelf(t);
  }

  /** The column widths add up to the usable width. */
  lemma ColumnSpansFill(active: seq<int>, content: Rect)
    requires |active| > 0 && Sum(active) > 0
    ensures SumSizes(ColumnSpans(active, content.MinX(), UsableLength(content.width, |active|), Sum(active) as real))
         == UsableLength(content.width, |active|)
  {
    var usable := UsableLength(content.width, |active|);
    var t := Sum(active) as real;
    ColumnSizesSum(active, content.MinX(), usable, t);
    MulOne(usable, t);
  }

  /** When the content is wide enough for the gaps, the last active column
      ends exactly at the right edge of the content. */
  lemma ColumnSpansReachEdge(active: seq<int>, content: Rect)
    requires |active| > 0 && Sum(active) > 0
    requires content.width >= Settings.InnerGap * (|active| - 1) as real
    ensures var r := ColumnSpans(active, content.MinX(), UsableLength(content.width, |active|), Sum(active) as real);
      r[|r| - 1].start + r[|r| - 1].size == content.MaxX()
  {
    var usable := UsableLength(content.width, |active|);
    var t := Sum(active) as real;
    ColumnSpansFill(active, content);
    ColumnSpansEnd(active, content.MinX(), usable, t);
  }

  /** The rows fill their usable height. */
  lemma RowSpansFill(active: seq<int>, content: Rect)
    requires |active| > 0 && Sum(active) > 0
    ensures SumSizes(RowSpans(active, content.MaxY(), UsableLength(content.height, |active|), Sum(active) as real))
         == UsableLength(content.height, |active|)
  {
    var usable := UsableLength(content.height, |active|);
    var t := Sum(active) as real;
    RowSizesSum(active, content.MaxY(), usable, t);
    MulOne(usable, t);
  }

  /** Spans keyed by the grid offset they belong to. */
  function SpanMap(idx: seq<nat>, spans: seq<Span>): (m: map<int, Span>)
    requires |idx| == |spans|
    requires forall a, b :: 0 <= a < b < |idx| ==> idx[a] < idx[b]
    ensures forall k :: 0 <= k < |idx| ==> idx[k] in m && m[idx[k]] == spans[k]
    ensures forall i :: i in m <==> i in idx
  {
    map k | 0 <= k < |idx| :: idx[k] := spans[k]
  }

  /** The column spans of the layout, keyed by column, in `frame`. */
  function ColumnSpansOf(frame: Rect, layout: LayoutPreset): seq<Span>
    requires Sum(ActiveWeights(layout.columnWeights)) > 0
  {
    var active := ActiveWeights(layout.columnWeights);
    var content := Content(frame);
    ColumnSpans(active, content.MinX(), UsableLength(content.width, |active|), Sum(active) as real)
  }

  /** The row spans of the layout in `frame`. */
  function RowSpansOf(frame: Rect, layout: LayoutPreset): seq<Span>
    requires Sum(ActiveWeights(layout.rowWeights)) > 0
  {
    var active := ActiveWeights(layout.rowWeights);
    var content := Content(frame);
    RowSpans(active, content.MaxY(), UsableLength(content.height, |active|), Sum(active) as real)
  }

  /** `LayoutEngine.frames(in:layout:)`: only catalogue cells in an active
      column and an active row get a frame (`FramesKeys` gives the converse). */
  function Frames(frame: Rect, layout: LayoutPreset): (r: map<GridCell, Rect>)
    ensures forall c :: c in r ==>
      c in All && c.column in ActiveIndices(layout.columnWeights) && c.row in ActiveIndices(layout.rowWeights)
  {
    var cols := ActiveIndices(layout.columnWeights);
    var rows := ActiveIndices(layout.rowWeights);
    if |cols| == 0 || |rows| == 0 then map[]
    else if Sum(ActiveWeights(layout.columnWeights)) <= 0 || Sum(ActiveWeights(layout.rowWeights)) <= 0 then map[]
    else
      var cm := SpanMap(cols, ColumnSpansOf(frame, layout));
      var rm := SpanMap(rows, RowSpansOf(frame, layout));
      CellFrames(cm, rm)
  }

  /** The final loop over the catalogue: a frame for each cell whose column
      and row both have a span. */
  function CellFrames(cm: map<int, Span>, rm: map<int, Span>): (r: map<GridCell, Rect>)
    ensures forall c :: c in r <==> c in All && c.column in cm && c.row in rm
    ensures forall c :: c in r ==>
      r[c] == Rect(cm[c.column].start, rm[c.row].start, cm[c.column].size, rm[c.row].size)
  {
    map c | c in All && c.column in cm && c.row in rm ::
      Rect(cm[c.column].start, rm[c.row].start, cm[c.column].size, rm[c.row].size)
  }

  /** `LayoutEngine.activeCells(for:)`: the catalogue cells whose column
      weight and row weight are both positive. */
  function ActiveCells(layout: LayoutPreset): (r: set<GridCell>)
    ensures forall c :: c in r <==>
      c in All
      && 0 <= c.column < |layout.columnWeights| && layout.columnWeights[c.column] > 0
      && 0 <= c.row < |layout.rowWeights| && layout.rowWeights[c.row] > 0
  {
    var cols := ActiveIndices(layout.columnWeights);
    var rows := ActiveIndices(layout.rowWeights);
    var r := set c | c in All && c.column in cols && c.row in rows;
    assert forall c :: c in r <==>
      c in All
      && 0 <= c.column < |layout.columnWeights| && layout.columnWeights[c.column] > 0
      && 0 <= c.row < |layout.rowWeights| && layout.rowWeights[c.row] > 0
    by {
      forall c: GridCell
        ensures c.column in cols <==> 0 <= c.column < |layout.columnWeights| && layout.columnWeights[c.column] > 0
        ensures c.row in rows <==> 0 <= c.row < |layout.rowWeights| && layout.rowWeights[c.row] > 0
      {
        ActiveMember(layout.columnWeights, c.column);
        ActiveMember(layout.rowWeights, c.row);
      }
    }
    r
  }

  /** Without a positive column weight or a positive row weight there are
      no frames at all. */
  lemma FramesEmptyWhenInactive(frame: Rect, layout: LayoutPreset)
    requires ActiveCount(layout.columnWeights) == 0 || ActiveCount(layout.rowWeights) == 0
    ensures Frames(frame, layout) == map[]
  {
    ActiveCountIsActiveIndices(layout.columnWeights);
    ActiveCountIsActiveIndices(layout.rowWeights);
  }

  /** The frames are keyed by exactly the active cells. */
  lemma FramesKeys(frame: Rect, layout: LayoutPreset)
    ensures Frames(frame, layout).Keys == ActiveCells(layout)
  {
    var cols := ActiveIndices(layout.columnWeights);
    var rows := ActiveIndices(layout.rowWeights);
    if |cols| > 0 && |rows| > 0 {
      ActiveSumPositive(layout.columnWeights);
      ActiveSumPositive(layout.rowWeights);
      CellFramesKeys(cols, rows, ColumnSpansOf(frame, layout), RowSpansOf(frame, layout));
    }
  }

  /** The cells that `CellFrames` frames when the spans are keyed by the
      active positions. */
  lemma CellFramesKeys(cols: seq<nat>, rows: seq<nat>, cs: seq<Span>, rs: seq<Span>)
    requires |cols| == |cs| && |rows| == |rs|
    requires forall a, b :: 0 <= a < b < |cols| ==> cols[a] < cols[b]
    requires forall a, b :: 0 <= a < b < |rows| ==> rows[a] < rows[b]
    ensures CellFrames(SpanMap(cols, cs), SpanMap(rows, rs)).Keys
         == set c | c in All && c.column in cols && c.row in rows
  {
  }

  /** A cell that has a frame sits in an active column and an active row,
      and the layout took the branch that computes spans. */
  lemma FramedCellIsActive(frame: Rect, layout: LayoutPreset, c: GridCell)
    requires c in Frames(frame, layout)
    ensures c.column in ActiveIndices(layout.columnWeights) && c.row in ActiveIndices(layout.rowWeights)
    ensures Sum(ActiveWeights(layout.columnWeights)) > 0 && Sum(ActiveWeights(layout.rowWeights)) > 0
  {
    FramesKeys(frame, layout);
  }

  /** The frame of a cell takes its x and width from its column's span and
      its y and height from its row's span. */
  lemma FrameFromSpans(frame: Rect, layout: LayoutPreset, c: GridCell, i: nat, j: nat)
    requires c in Frames(frame, layout)
    requires i < |ActiveIndices(layout.columnWeights)| && ActiveIndices(layout.columnWeights)[i] == c.column
    requires j < |ActiveIndices(layout.rowWeights)| && ActiveIndices(layout.rowWeights)[j] == c.row
    ensures Sum(ActiveWeights(layout.columnWeights)) > 0 && Sum(ActiveWeights(layout.rowWeights)) > 0
    ensures Frames(frame, layout)[c].x == ColumnSpansOf(frame, layout)[i].start
    ensures Frames(frame, layout)[c].width == ColumnSpansOf(frame, layout)[i].size
    ensures Frames(frame, layout)[c].y == RowSpansOf(frame, layout)[j].start
    ensures Frames(frame, layout)[c].height == RowSpansOf(frame, layout)[j].size
  {
    FramedCellIsActive(frame, layout, c);
  }

  /** The position of `x` in an ascending sequence that contains it. */
  lemma PositionOf(idx: seq<nat>, x: int) returns (k: nat)
    requires x in idx
    ensures k < |idx| && idx[k] == x
  {
    k :| 0 <= k < |idx| && idx[k] == x;
  }

  /** Where a framed cell's frame comes from: the spans at the positions
      of its column and its row among the active ones. */
  lemma FrameOf(frame: Rect, layout: LayoutPreset, c: GridCell) returns (i: nat, j: nat)
    requires c in Frames(frame, layout)
    ensures Sum(ActiveWeights(layout.columnWeights)) > 0 && Sum(ActiveWeights(layout.rowWeights)) > 0
    ensures i < |ActiveIndices(layout.columnWeights)| && ActiveIndices(layout.columnWeights)[i] == c.column
    ensures j < |ActiveIndices(layout.rowWeights)| && ActiveIndices(layout.rowWeights)[j] == c.row
    ensures Frames(frame, layout)[c]
         == Rect(ColumnSpansOf(frame, layout)[i].start, RowSpansOf(frame, layout)[j].start,
                 ColumnSpansOf(frame, layout)[i].size, RowSpansOf(frame, layout)[j].size)
  {
    FramedCellIsActive(frame, layout, c);
    i := PositionOf(ActiveIndices(layout.columnWeights), c.column);
    j := PositionOf(ActiveIndices(layout.rowWeights), c.row);
    FrameFromSpans(frame, layout, c, i, j);
  }

  /** The column span at active position `i` has its weight's share. */
  lemma ColumnSpanOfSize(frame: Rect, layout: LayoutPreset, i: nat)
    requires Sum(ActiveWeights(layout.columnWeights)) > 0
    requires i < |ActiveIndices(layout.columnWeights)|
    ensures ActiveIndices(layout.columnWeights)[i] < |layout.columnWeights|
    ensures ColumnSpansOf(frame, layout)[i].size
         == Share(UsableLength(Content(frame).width, ActiveCount(layout.columnWeights)),
                  layout.columnWeights[ActiveIndices(layout.columnWeights)[i]],
                  Sum(ActiveWeights(layout.columnWeights)) as real)
  {
    var active := ActiveWeights(layout.columnWeights);
    var content := Content(frame);
    ActiveCountIsActiveIndices(layout.columnWeights);
    ColumnSpanSizes(active, content.MinX(), UsableLength(content.width, |active|), Sum(active) as real);
  }

  /** The row span at active position `j` has its weight's share. */
  lemma RowSpanOfSize(frame: Rect, layout: LayoutPreset, j: nat)
    requires Sum(ActiveWeights(layout.rowWeights)) > 0
    requires j < |ActiveIndices(layout.rowWeights)|
    ensures ActiveIndices(layout.rowWeights)[j] < |layout.rowWeights|
    ensures RowSpansOf(frame, layout)[j].size
         == Share(UsableLength(Content(frame).height, ActiveCount(layout.rowWeights)),
                  layout.rowWeights[ActiveIndices(layout.rowWeights)[j]],
                  Sum(ActiveWeights(layout.rowWeights)) as real)
  {
    var active := ActiveWeights(layout.rowWeights);
    var content := Content(frame);
    ActiveCountIsActiveIndices(layout.rowWeights);
    RowSpanSizes(active, content.MaxY(), UsableLength(content.height, |active|), Sum(active) as real);
  }

  /** Each active column is as wide as its share of the usable width, and
      never negative. */
  lemma FramesColumnWidth(frame: Rect, layout: LayoutPreset, c: GridCell)
    requires c in Frames(frame, layout)
    ensures 0 <= c.column < |layout.columnWeights|
    ensures Frames(frame, layout)[c].width
         == Share(UsableLength(Content(frame).width, ActiveCount(layout.columnWeights)),
                  layout.columnWeights[c.column], Sum(ActiveWeights(layout.columnWeights)) as real)
    ensures Frames(frame, layout)[c].width >= 0.0
  {
    var i, j := FrameOf(frame, layout, c);
    ColumnSpanOfSize(frame, layout, i);
    NonNegativeShare(UsableLength(Content(frame).width, ActiveCount(layout.columnWeights)),
                     layout.columnWeights[c.column], Sum(ActiveWeights(layout.columnWeights)));
  }

  /** Each active row is as high as its share of the usable height, and
      never negative. */
  lemma FramesRowHeight(frame: Rect, layout: LayoutPreset, c: GridCell)
    requires c in Frames(frame, layout)
    ensures 0 <= c.row < |layout.rowWeights|
    ensures Frames(frame, layout)[c].height
         == Share(UsableLength(Content(frame).height, ActiveCount(layout.rowWeights)),
                  layout.rowWeights[c.row], Sum(ActiveWeights(layout.rowWeights)) as real)
    ensures Frames(frame, layout)[c].height >= 0.0
  {
    var i, j := FrameOf(frame, layout, c);
    RowSpanOfSize(frame, layout, j);
    NonNegativeShare(UsableLength(Content(frame).height, ActiveCount(layout.rowWeights)),
                     layout.rowWeights[c.row], Sum(ActiveWeights(layout.rowWeights)));
  }

  lemma NonNegativeShare(u: real, w: int, t: int)
    requires u >= 0.0 && w > 0 && t > 0
    ensures Share(u, w, t as real) >= 0.0
  {
  }

  /** The first active column starts at the content's left edge, and each
      later active column starts one gap after the previous one ends. */
  lemma FramesColumnPlacement(frame: Rect, layout: LayoutPreset, c: GridCell, d: GridCell, k: nat)
    requires c in Frames(frame, layout) && d in Frames(frame, layout)
    requires k + 1 < |ActiveIndices(layout.columnWeights)|
    requires ActiveIndices(layout.columnWeights)[k] == c.column
    requires ActiveIndices(layout.columnWeights)[k + 1] == d.column
    ensures Frames(frame, layout)[d].x
         == Frames(frame, layout)[c].x + Frames(frame, layout)[c].width + Settings.InnerGap
  {
    var jc := PositionOf(ActiveIndices(layout.rowWeights), c.row) by { FramedCellIsActive(frame, layout, c); }
    var jd := PositionOf(ActiveIndices(layout.rowWeights), d.row) by { FramedCellIsActive(frame, layout, d); }
    FrameFromSpans(frame, layout, c, k, jc);
    FrameFromSpans(frame, layout, d, k + 1, jd);
  }

  /** The first active column starts at the content's left edge. */
  lemma FramesFirstColumn(frame: Rect, layout: LayoutPreset, c: GridCell)
    requires c in Frames(frame, layout)
    requires c.column == ActiveIndices(layout.columnWeights)[0]
    ensures Frames(frame, layout)[c].x == Content(frame).MinX()
  {
    var j := PositionOf(ActiveIndices(layout.rowWeights), c.row) by { FramedCellIsActive(frame, layout, c); }
    FrameFromSpans(frame, layout, c, 0, j);
  }

  /** The first active row's top edge is the content's top edge, and each
      later active row's top edge lies one gap below the previous row. */
  lemma FramesRowPlacement(frame: Rect, layout: LayoutPreset, c: GridCell, d: GridCell, k: nat)
    requires c in Frames(frame, layout) && d in Frames(frame, layout)
    requires k + 1 < |ActiveIndices(layout.rowWeights)|
    requires ActiveIndices(layout.rowWeights)[k] == c.row
    requires ActiveIndices(layout.rowWeights)[k + 1] == d.row
    ensures Frames(frame, layout)[d].MaxY() == Frames(frame, layout)[c].MinY() - Settings.InnerGap
  {
    var ic := PositionOf(ActiveIndices(layout.columnWeights), c.column) by { FramedCellIsActive(frame, layout, c); }
    var id := PositionOf(ActiveIndices(layout.columnWeights), d.column) by { FramedCellIsActive(frame, layout, d); }
    FrameFromSpans(frame, layout, c, ic, k);
    FrameFromSpans(frame, layout, d, id, k + 1);
  }

  /** The first active row's top edge is the content's top edge. */
  lemma FramesFirstRow(frame: Rect, layout: LayoutPreset, c: GridCell)
    requires c in Frames(frame, layout)
    requires c.row == ActiveIndices(layout.rowWeights)[0]
    ensures Frames(frame, layout)[c].MaxY() == Content(frame).MaxY()
  {
    var i, j := FrameOf(frame, layout, c);
    FirstPosition(ActiveIndices(layout.rowWeights), j);
    RowSpansTop(frame, layout);
    TopEdge(Frames(frame, layout)[c], RowSpansOf(frame, layout)[0], Content(frame).MaxY());
  }

  /** A rectangle built on a row span ends where the span ends. */
  lemma TopEdge(r: Rect, s: Span, top: real)
    requires r.y == s.start && r.height == s.size && s.start + s.size == top
    ensures r.MaxY() == top
  {
  }

  /** In an ascending sequence only position 0 holds the first element. */
  lemma FirstPosition(idx: seq<nat>, j: nat)
    requires forall a, b :: 0 <= a < b < |idx| ==> idx[a] < idx[b]
    requires j < |idx| && idx[j] == idx[0]
    ensures j == 0
  {
  }

  /** The first row span ends at the content's top edge. */
  lemma RowSpansTop(frame: Rect, layout: LayoutPreset)
    requires Sum(ActiveWeights(layout.rowWeights)) > 0
    ensures |RowSpansOf(frame, layout)| > 0
    ensures RowSpansOf(frame, layout)[0].start + RowSpansOf(frame, layout)[0].size == Content(frame).MaxY()
  {
    assert |ActiveWeights(layout.rowWeights)| > 0;
  }

  /** Cells in one column share x and width; cells in one row share y and
      height. */
  lemma FramesShareLines(frame: Rect, layout: LayoutPreset, c: GridCell, d: GridCell)
    requires c in Frames(frame, layout) && d in Frames(frame, layout)
    ensures c.column == d.column ==>
      Frames(frame, layout)[c].x == Frames(frame, layout)[d].x
      && Frames(frame, layout)[c].width == Frames(frame, layout)[d].width
    ensures c.row == d.row ==>
      Frames(frame, layout)[c].y == Frames(frame, layout)[d].y
      && Frames(frame, layout)[c].height == Frames(frame, layout)[d].height
  {
    FramedCellIsActive(frame, layout, c);
    FramedCellIsActive(frame, layout, d);
    var ic := PositionOf(ActiveIndices(layout.columnWeights), c.column);
    var jc := PositionOf(ActiveIndices(layout.rowWeights), c.row);
    var id := PositionOf(ActiveIndices(layout.columnWeights), d.column);
    var jd := PositionOf(ActiveIndices(layout.rowWeights), d.row);
    FrameFromSpans(frame, layout, c, ic, jc);
    FrameFromSpans(frame, layout, d, id, jd);
  }

  /** The preset every worked example uses: three columns over two rows. */
  const ExamplePreset: LayoutPreset := LayoutPreset([1, 1, 1, 0], [1, 1, 0])

  lemma ExampleIsDefaultPreset()
    ensures DefaultPreset() == ExamplePreset
  {
  }

  lemma ExampleColumnIndices()
    ensures ActiveIndices(ExamplePreset.columnWeights) == [0, 1, 2]
  {
    var cw := [1, 1, 1, 0];
    assert ActiveIndicesFrom(cw, 3) == [];
    assert ActiveIndicesFrom(cw, 2) == [2];
    assert ActiveIndicesFrom(cw, 1) == [1, 2];
  }

  lemma ExampleColumnsActive()
    ensures ActiveIndices(ExamplePreset.columnWeights) == [0, 1, 2]
    ensures ActiveWeights(ExamplePreset.columnWeights) == [1, 1, 1]
    ensures Sum(ActiveWeights(ExamplePreset.columnWeights)) == 3
  {
    ExampleColumnIndices();
    assert ActiveWeights(ExamplePreset.columnWeights) == [1, 1, 1];
    assert [1, 1, 1][1..] == [1, 1] && [1, 1][1..] == [1];
  }

  lemma ExampleRowIndices()
    ensures ActiveIndices(ExamplePreset.rowWeights) == [0, 1]
  {
    var rw := [1, 1, 0];
    assert ActiveIndicesFrom(rw, 2) == [];
    assert ActiveIndicesFrom(rw, 1) == [1];
  }

  lemma ExampleRowsActive()
    ensures ActiveIndices(ExamplePreset.rowWeights) == [0, 1]
    ensures ActiveWeights(ExamplePreset.rowWeights) == [1, 1]
    ensures Sum(ActiveWeights(ExamplePreset.rowWeights)) == 2
  {
    ExampleRowIndices();
    assert ActiveWeights(ExamplePreset.rowWeights) == [1, 1];
    assert [1, 1][1..] == [1];
  }

  /** The default preset has three equal active columns and two equal
      active rows, and the 1200 x 800 rectangle of the worked example has
      the 1184 x 784 content rectangle at (8, 8). */
  lemma DefaultPresetShape()
    ensures ExampleShaped(Rect(0.0, 0.0, 1200.0, 800.0), DefaultPreset())
  {
    ExampleIsDefaultPreset();
    ExampleColumnsActive();
    ExampleRowsActive();
  }

  /** The layouts of the worked example: three equal active columns
      over two equal active rows, in a rectangle whose content is
      1184 x 784 at (8, 8). */
  predicate ExampleShaped(frame: Rect, layout: LayoutPreset) {
    && Content(frame) == Rect(8.0, 8.0, 1184.0, 784.0)
    && ActiveIndices(layout.columnWeights) == [0, 1, 2] && ActiveWeights(layout.columnWeights) == [1, 1, 1]
    && ActiveIndices(layout.rowWeights) == [0, 1] && ActiveWeights(layout.rowWeights) == [1, 1]
  }

  lemma ExampleSpans(frame: Rect, layout: LayoutPreset)
    requires ExampleShaped(frame, layout)
    ensures Sum(ActiveWeights(layout.columnWeights)) > 0 && Sum(ActiveWeights(layout.rowWeights)) > 0
    ensures ColumnSpansOf(frame, layout)[0] == Span(8.0, 1168.0 / 3.0)
    ensures ColumnSpansOf(frame, layout)[2] == Span(2408.0 / 3.0, 1168.0 / 3.0)
    ensures RowSpansOf(frame, layout)[0] == Span(404.0, 388.0)
    ensures RowSpansOf(frame, layout)[1] == Span(8.0, 388.0)
  {
    assert Sum([1, 1, 1]) == 3;
    assert Sum([1, 1]) == 2;
    assert UsableLength(1184.0, 3) == 1168.0;
    assert UsableLength(784.0, 2) == 776.0;
    var cs := ColumnSpans([1, 1, 1], 8.0, 1168.0, 3.0);
    assert ColumnSpansOf(frame, layout) == cs;
    assert RowSpansOf(frame, layout) == RowSpans([1, 1], 792.0, 776.0, 2.0);
    assert Share(1168.0, 1, 3.0) == 1168.0 / 3.0;
    assert Share(776.0, 1, 2.0) == 388.0;
    assert cs[1].start == 8.0 + 1168.0 / 3.0 + 8.0;
  }

  /** A catalogue cell in an active column and an active row has a frame. */
  lemma FramedWhenActive(frame: Rect, layout: LayoutPreset, c: GridCell, i: nat, j: nat)
    requires c in All
    requires i < |ActiveIndices(layout.columnWeights)| && ActiveIndices(layout.columnWeights)[i] == c.column
    requires j < |ActiveIndices(layout.rowWeights)| && ActiveIndices(layout.rowWeights)[j] == c.row
    ensures c in Frames(frame, layout)
  {
    FramesKeys(frame, layout);
    assert c in ActiveCells(layout);
  }

  /** The worked example of the layout engine, first half: in a layout of
      that shape (the default preset in a 1200 x 800 rectangle, by
      `DefaultPresetShape`) the top-left cell (Q) lands at (8, 404), 1168/3
      wide and 388 high. */
  lemma ExampleTopLeft(frame: Rect, layout: LayoutPreset)
    requires ExampleShaped(frame, layout)
    ensures All[0] in Frames(frame, layout)
    ensures Frames(frame, layout)[All[0]] == Rect(8.0, 404.0, 1168.0 / 3.0, 388.0)
  {
    FramedWhenActive(frame, layout, All[0], 0, 0);
    FrameFromSpans(frame, layout, All[0], 0, 0);
    ExampleSpans(frame, layout);
  }

  /** The worked example, second half: the cell in row 1, column 2 (D)
      lands at (2408/3, 8), with the same size. */
  lemma ExampleMiddleRight(frame: Rect, layout: LayoutPreset)
    requires ExampleShaped(frame, layout)
    ensures All[6] in Frames(frame, layout)
    ensures Frames(frame, layout)[All[6]] == Rect(2408.0 / 3.0, 8.0, 1168.0 / 3.0, 388.0)
  {
    FramedWhenActive(frame, layout, All[6], 2, 1);
    FrameFromSpans(frame, layout, All[6], 2, 1);
    assert ColumnSpansOf(frame, layout)[2] == Span(2408.0 / 3.0, 1168.0 / 3.0)
        && RowSpansOf(frame, layout)[1] == Span(8.0, 388.0) by {
      ExampleSpans(frame, layout);
    }
  }
}
