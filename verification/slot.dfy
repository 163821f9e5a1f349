/** The six overlay slots of the tiler (Sources/WManager/Slot.swift): two
    rows of a quarter, a half and a quarter of the screen width, bound to
    the Q, W, E and A, S, D keys; and the frame a set of selected slots
    gives a window (the geometric part of `applySlots` in
    Sources/WManager/WindowManager.swift). */
module Slots {
  import opened Wrappers
  import opened Rects
  import Keys
  import Settings
  import GridCells

  datatype Slot = TopLeft | TopCenter | TopRight | BottomLeft | BottomCenter | BottomRight

  /** `allCases`, in declaration order. */
  const AllSlots: seq<Slot> := [TopLeft, TopCenter, TopRight, BottomLeft, BottomCenter, BottomRight]

  lemma AllSlotsComplete(s: Slot)
    ensures s in AllSlots
  {
  }

  /** `keyCode`: a key of the cell catalogue, and none of the keys the
      dispatcher reserves for itself. */
  function KeyCodeOf(s: Slot): (k: Keys.KeyCode)
    ensures k in GridCells.CatalogueKeys
    ensures k !in {Keys.T, Keys.Escape, Keys.LeftArrow, Keys.RightArrow, Keys.UpArrow, Keys.DownArrow}
  {
    match s
    case TopLeft => Keys.Q
    case TopCenter => Keys.W
    case TopRight => Keys.E
    case BottomLeft => Keys.A
    case BottomCenter => Keys.S
    case BottomRight => Keys.D
  }

  /** `label`: the one-letter name of the slot's key. */
  function Label(s: Slot): (l: string)
    ensures |l| == 1
  {
    match s
    case TopLeft => "Q"
    case TopCenter => "W"
    case TopRight => "E"
    case BottomLeft => "A"
    case BottomCenter => "S"
    case BottomRight => "D"
  }

  /** Different slots have different keys and different labels. */
  lemma KeysAndLabelsDistinct(s: Slot, t: Slot)
    requires s != t
    ensures KeyCodeOf(s) != KeyCodeOf(t)
    ensures Label(s) != Label(t)
  {
  }

  /** `fromKeyCode(_:)`: the first slot bound to `k`. */
  function FromKeyCode(k: Keys.KeyCode): (r: Option<Slot>)
    ensures r.Some? ==> KeyCodeOf(r.value) == k
    ensures r.None? <==> forall s :: KeyCodeOf(s) != k
  {
    assert forall s :: s in AllSlots by {
      forall s ensures s in AllSlots {
        AllSlotsComplete(s);
      }
    }
    FirstWhere(AllSlots, (s: Slot) => KeyCodeOf(s) == k)
  }

  /** Looking up a slot's own key finds that slot. */
  lemma FromOwnKeyCode(s: Slot)
    ensures FromKeyCode(KeyCodeOf(s)) == Some(s)
  {
    var r := FromKeyCode(KeyCodeOf(s));
    if r.value != s {
      KeysAndLabelsDistinct(r.value, s);
    }
  }

  /** Keys other than the six slot keys (T and the arrows, for instance)
      name no slot. */
  lemma OtherKeysNameNoSlot(k: Keys.KeyCode)
    requires k !in {Keys.Q, Keys.W, Keys.E, Keys.A, Keys.S, Keys.D}
    ensures FromKeyCode(k).None?
  {
  }

  /** Each slot's key is a catalogue key, the catalogue gives it the same
      label, and the slot's column is the catalogue cell's column, in the
      top row for the top slots and the middle row for the bottom ones. */
  lemma SlotsAgreeWithCatalogue(s: Slot)
    ensures GridCells.CellForKey(KeyCodeOf(s)).Some?
    ensures var c := GridCells.CellForKey(KeyCodeOf(s)).value;
      c.keyLabel == Label(s) && c.column == Column(s) && c.row == (if IsTop(s) then 0 else 1)
  {
    var i := CatalogueIndex(s);
    GridCells.CellForOwnKey(GridCells.All[i]);
  }

  /** Where a slot's key sits in the grid catalogue. */
  function CatalogueIndex(s: Slot): (i: nat)
    ensures i < |GridCells.All|
    ensures var c := GridCells.All[i];
      c.keyCode == KeyCodeOf(s) && c.keyLabel == Label(s)
      && c.column == Column(s) && c.row == (if IsTop(s) then 0 else 1)
  {
    match s
    case TopLeft => 0
    case TopCenter => 1
    case TopRight => 2
    case BottomLeft => 4
    case BottomCenter => 5
    case BottomRight => 6
  }

  /** Column 0, 1 or 2 of a slot. */
  function Column(s: Slot): nat {
    match s
    case TopLeft => 0
    case BottomLeft => 0
    case TopCenter => 1
    case BottomCenter => 1
    case TopRight => 2
    case BottomRight => 2
  }

  function IsTop(s: Slot): bool {
    s.TopLeft? || s.TopCenter? || s.TopRight?
  }

  /** The width of the columns together, once the two gaps are taken out. */
  function TotalWidth(frame: Rect): real {
    Content(frame).width - Settings.InnerGap * 2.0
  }

  function RowHeight(frame: Rect): real {
    (Content(frame).height - Settings.InnerGap) * 0.5
  }

  function ColumnWidth(frame: Rect, column: nat): real {
    if column == 1 then TotalWidth(frame) * 0.5 else TotalWidth(frame) * 0.25
  }

  function ColumnX(frame: Rect, column: nat): real {
    var x0 := Content(frame).MinX();
    if column == 0 then x0
    else if column == 1 then x0 + ColumnWidth(frame, 0) + Settings.InnerGap
    else x0 + ColumnWidth(frame, 0) + Settings.InnerGap + ColumnWidth(frame, 1) + Settings.InnerGap
  }

  /** The frame of one slot, as `frames(in:)` lays it out. */
  function SlotFrame(frame: Rect, s: Slot): Rect {
    var y0 := Content(frame).MinY();
    var y := if IsTop(s) then y0 + RowHeight(frame) + Settings.InnerGap else y0;
    Rect(ColumnX(frame, Column(s)), y, ColumnWidth(frame, Column(s)), RowHeight(frame))
  }

  /** `frames(in:)`: a frame for every slot. */
  function SlotFrames(frame: Rect): (m: map<Slot, Rect>)
    ensures forall s :: s in m && m[s] == SlotFrame(frame, s)
  {
    assert forall s :: s in AllSlots by {
      forall s ensures s in AllSlots {
        AllSlotsComplete(s);
      }
    }
    map s | s in AllSlots :: SlotFrame(frame, s)
  }

  /** The side columns get a quarter and the centre column half of the
      width left after the two gaps, so the three widths and the two gaps
      make up the content width exactly; each column starts one gap after
      the previous one ends, and the last ends at the content's right
      edge. */
  lemma SlotColumnsFillWidth(frame: Rect)
    ensures ColumnWidth(frame, 0) == ColumnWidth(frame, 2) == TotalWidth(frame) / 4.0
    ensures ColumnWidth(frame, 1) == TotalWidth(frame) / 2.0
    ensures ColumnWidth(frame, 0) + ColumnWidth(frame, 1) + ColumnWidth(frame, 2) + 2.0 * Settings.InnerGap
         == Content(frame).width
    ensures ColumnX(frame, 0) == Content(frame).MinX()
    ensures ColumnX(frame, 1) == ColumnX(frame, 0) + ColumnWidth(frame, 0) + Settings.InnerGap
    ensures ColumnX(frame, 2) == ColumnX(frame, 1) + ColumnWidth(frame, 1) + Settings.InnerGap
    ensures ColumnX(frame, 2) + ColumnWidth(frame, 2) == Content(frame).MaxX()
  {
  }

  /** Both rows are half of the height left after one gap; the bottom row
      sits on the content's bottom edge, the top row one gap above it and
      reaching the content's top edge. */
  lemma SlotRowsFillHeight(frame: Rect, s: Slot)
    ensures SlotFrame(frame, s).height == (Content(frame).height - Settings.InnerGap) / 2.0
    ensures !IsTop(s) ==> SlotFrame(frame, s).MinY() == Content(frame).MinY()
    ensures IsTop(s) ==> SlotFrame(frame, s).MinY() == Content(frame).MinY() + RowHeight(frame) + Settings.InnerGap
    ensures IsTop(s) ==> SlotFrame(frame, s).MaxY() == Content(frame).MaxY()
  {
  }

  /** The slots of `slots`, in declaration order: the order in which this
      model visits the set (the source visits it in an unspecified order;
      a union does not depend on it). */
  function SelectedIn(order: seq<Slot>, slots: set<Slot>): (r: seq<Slot>)
    ensures forall s :: s in r <==> s in order && s in slots
    decreases |order|
  {
    if |order| == 0 then []
    else if order[0] in slots then [order[0]] + SelectedIn(order[1..], slots)
    else SelectedIn(order[1..], slots)
  }

  /** The loop of `applySlots`: the union of `rs` onto `acc`, where `None`
      plays the part of `CGRect.null`. */
  function UnionFold(acc: Option<Rect>, rs: seq<Rect>): (r: Option<Rect>)
    ensures r.None? <==> acc.None? && |rs| == 0
    ensures r.Some? && acc.Some? ==> Encloses(r.value, acc.value)
    ensures r.Some? ==> forall i :: 0 <= i < |rs| ==> Encloses(r.value, rs[i])
    ensures r.Some? ==>
      (acc.Some? && r.value.MinX() == acc.value.MinX()) || exists i :: 0 <= i < |rs| && r.value.MinX() == rs[i].MinX()
    ensures r.Some? ==>
      (acc.Some? && r.value.MaxX() == acc.value.MaxX()) || exists i :: 0 <= i < |rs| && r.value.MaxX() == rs[i].MaxX()
    ensures r.Some? ==>
      (acc.Some? && r.value.MinY() == acc.value.MinY()) || exists i :: 0 <= i < |rs| && r.value.MinY() == rs[i].MinY()
    ensures r.Some? ==>
      (acc.Some? && r.value.MaxY() == acc.value.MaxY()) || exists i :: 0 <= i < |rs| && r.value.MaxY() == rs[i].MaxY()
    decreases |rs|
  {
    if |rs| == 0 then acc
    else
      var next := match acc
        case None => rs[0]
        case Some(u) => Union(u, rs[0]);
      var r := UnionFold(Some(next), rs[1..]);
      assert forall i :: 1 <= i < |rs| ==> rs[i] == rs[1..][i - 1];
      r
  }

  /** The frames of `order`, slot by slot. */
  function FramesOf(frame: Rect, order: seq<Slot>): (rs: seq<Rect>)
    ensures |rs| == |order|
    ensures forall i :: 0 <= i < |rs| ==> rs[i] == SlotFrame(frame, order[i])
  {
    seq(|order|, i requires 0 <= i < |order| => SlotFrame(frame, order[i]))
  }

  /** The frame `applySlots` gives the focused window for a selection:
      nothing for an empty selection (the window is left alone), otherwise
      the union of the selected slots' frames. */
  function SlotsFrame(frame: Rect, slots: set<Slot>): (r: Option<Rect>)
    ensures r.None? <==> slots == {}
  {
    if slots == {} then None
    else
      var s :| s in slots;
      AllSlotsComplete(s);
      UnionFold(None, FramesOf(frame, SelectedIn(AllSlots, slots)))
  }

  /** The union encloses the frame of every selected slot. */
  lemma SlotsFrameEncloses(frame: Rect, slots: set<Slot>, s: Slot)
    requires s in slots
    ensures SlotsFrame(frame, slots).Some?
    ensures Encloses(SlotsFrame(frame, slots).value, SlotFrame(frame, s))
  {
    var order := SelectedIn(AllSlots, slots);
    AllSlotsComplete(s);
    var i :| 0 <= i < |order| && order[i] == s;
    assert FramesOf(frame, order)[i] == SlotFrame(frame, s);
  }

  /** No smaller rectangle would do: every edge of the union is the same
      edge of some selected slot's frame. */
  lemma SlotsFrameTight(frame: Rect, slots: set<Slot>)
    requires slots != {}
    ensures var u := SlotsFrame(frame, slots).value;
      && (exists s :: s in slots && u.MinX() == SlotFrame(frame, s).MinX())
      && (exists s :: s in slots && u.MaxX() == SlotFrame(frame, s).MaxX())
      && (exists s :: s in slots && u.MinY() == SlotFrame(frame, s).MinY())
      && (exists s :: s in slots && u.MaxY() == SlotFrame(frame, s).MaxY())
  {
    var order := SelectedIn(AllSlots, slots);
    var rs := FramesOf(frame, order);
    var u := SlotsFrame(frame, slots).value;
    var i :| 0 <= i < |rs| && u.MinX() == rs[i].MinX();
    assert order[i] in slots;
    var j :| 0 <= j < |rs| && u.MaxX() == rs[j].MaxX();
    assert order[j] in slots;
    var k :| 0 <= k < |rs| && u.MinY() == rs[k].MinY();
    assert order[k] in slots;
    var l :| 0 <= l < |rs| && u.MaxY() == rs[l].MaxY();
    assert order[l] in slots;
  }

  /** A single slot's union is its own frame. */
  lemma SingleSlotFrame(frame: Rect, s: Slot)
    ensures SlotsFrame(frame, {s}) == Some(SlotFrame(frame, s))
  {
    var f := SlotFrame(frame, s);
    assert SelectedIn(AllSlots, {s}) == [s] by {
      AllSlotsComplete(s);
      SelectedOne(AllSlots, s);
    }
    assert FramesOf(frame, [s]) == [f];
    assert UnionFold(None, [f]) == UnionFold(Some(f), [f][1..]);
    assert [f][1..] == [];
  }

  /** Selecting one slot out of a list without repetitions keeps just it. */
  lemma {:induction false} SelectedOne(order: seq<Slot>, s: Slot)
    requires s in order
    requires forall i, j :: 0 <= i < j < |order| ==> order[i] != order[j]
    ensures SelectedIn(order, {s}) == [s]
    decreases |order|
  {
    if order[0] == s {
      assert s !in order[1..];
      NothingSelected(order[1..], {s});
    } else {
      SelectedOne(order[1..], s);
    }
  }

  /** Nothing is selected from a list that holds no selected slot. */
  lemma NothingSelected(order: seq<Slot>, slots: set<Slot>)
    requires forall s :: s in order ==> s !in slots
    ensures SelectedIn(order, slots) == []
  {
    var r := SelectedIn(order, slots);
    assert forall s :: s !in r;
  }

  /** The two slots of the left column together span the column from the
      content's bottom edge to its top edge. */
  lemma LeftColumnFrame(frame: Rect, slots: set<Slot>)
    requires slots == {TopLeft, BottomLeft}
    requires RowHeight(frame) >= 0.0
    ensures SlotsFrame(frame, slots).Some?
    ensures var u := SlotsFrame(frame, slots).value;
      u.MinY() == Content(frame).MinY() && u.MaxY() == Content(frame).MaxY()
      && u.MinX() == Content(frame).MinX() && u.width == ColumnWidth(frame, 0)
  {
    var top := SlotFrame(frame, TopLeft);
    var bottom := SlotFrame(frame, BottomLeft);
    SlotsFrameEncloses(frame, slots, TopLeft);
    SlotsFrameEncloses(frame, slots, BottomLeft);
    SlotsFrameTight(frame, slots);
    SlotRowsFillHeight(frame, TopLeft);
    SlotRowsFillHeight(frame, BottomLeft);
    var u := SlotsFrame(frame, slots).value;
    assert top.MinX() == bottom.MinX() == Content(frame).MinX();
    assert top.MaxX() == bottom.MaxX();
    assert forall t :: t in slots ==> t == TopLeft || t == BottomLeft;
  }
}
