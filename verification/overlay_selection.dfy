/** The overlay's accumulated selection
    (Sources/WManager/OverlaySelectionState.swift): a set that only grows
    until it is cleared, with an optional count at which a selection
    commits. The element type is a parameter: the dispatcher stores slots
    in it, the state's own declaration names grid cells. */
module OverlaySelection {
  import opened Wrappers

  datatype SelectionState<T> = SelectionState(selection: set<T>)

  /** A fresh state, as declared. */
  function Initial<T>(): (st: SelectionState<T>)
    ensures |st.selection| == 0
  {
    SelectionState({})
  }

  /** `select(_:)`: add `c` and return the new selection. */
  function Select<T>(st: SelectionState<T>, c: T): (r: (SelectionState<T>, set<T>))
    ensures c in r.0.selection && st.selection <= r.0.selection
    ensures forall x :: x in r.0.selection ==> x == c || x in st.selection
    ensures r.1 == r.0.selection
  {
    var s := st.selection + {c};
    (SelectionState(s), s)
  }

  /** The result of `select(_:maxSelectionCount:)`. */
  datatype LimitedSelect<T> = LimitedSelect(state: SelectionState<T>, selection: set<T>, reachedLimit: bool)

  /** Whether a selection of `count` elements has reached the optional
      commit count `max`; an absent or non-positive count never does. */
  predicate LimitReached(count: nat, max: Option<int>) {
    match max
    case None => false
    case Some(m) => m > 0 && count >= m
  }

  /** `select(_:maxSelectionCount:)`: add `c`, then report whether the
      selection now holds at least `max` elements. */
  function SelectWithLimit<T>(st: SelectionState<T>, c: T, max: Option<int>): (r: LimitedSelect<T>)
    ensures c in r.state.selection && st.selection <= r.state.selection
    ensures forall x :: x in r.state.selection ==> x == c || x in st.selection
    ensures r.selection == r.state.selection
    ensures r.reachedLimit <==> max.Some? && max.value > 0 && |r.selection| >= max.value
  {
    var s := st.selection + {c};
    LimitedSelect(SelectionState(s), s, LimitReached(|s|, max))
  }

  /** `clear()`. */
  function Clear<T>(st: SelectionState<T>): (r: SelectionState<T>)
    ensures forall x :: x !in r.selection
  {
    SelectionState({})
  }

  /** Both `select` overloads leave the same state behind. */
  lemma SelectOverloadsAgree<T>(st: SelectionState<T>, c: T, max: Option<int>)
    ensures SelectWithLimit(st, c, max).state == Select(st, c).0
    ensures SelectWithLimit(st, c, max).selection == Select(st, c).1
  {
  }

  /** Without a positive commit count the limit is never reported, however
      large the selection grows. */
  lemma NoLimitWithoutPositiveMax<T>(st: SelectionState<T>, c: T, max: Option<int>)
    requires max.None? || max.value <= 0
    ensures !SelectWithLimit(st, c, max).reachedLimit
  {
  }

  /** Selecting an element that is already selected changes nothing, and
      selecting twice is the same as selecting once. */
  lemma ReselectUnchanged<T>(st: SelectionState<T>, c: T)
    requires c in st.selection
    ensures Select(st, c).0 == st
  {
    assert st.selection + {c} == st.selection;
  }

  lemma SelectIdempotent<T>(st: SelectionState<T>, c: T)
    ensures Select(Select(st, c).0, c).0 == Select(st, c).0
  {
    ReselectUnchanged(Select(st, c).0, c);
  }

  /** A selection grows by at most one element per call. */
  lemma SelectGrowsByOne<T>(st: SelectionState<T>, c: T)
    ensures |Select(st, c).1| == if c in st.selection then |st.selection| else |st.selection| + 1
  {
    if c in st.selection {
      ReselectUnchanged(st, c);
    } else {
      assert st.selection + {c} - {c} == st.selection;
    }
  }

  /** Re-selecting an element while the selection is already at the limit
      reports the limit again. */
  lemma ReselectAtLimit<T>(st: SelectionState<T>, c: T, m: int)
    requires c in st.selection && m > 0 && |st.selection| >= m
    ensures SelectWithLimit(st, c, Some(m)).reachedLimit
  {
    ReselectUnchanged(st, c);
  }

  /** The two-step scenario of the overlay with a commit count of two: the
      first element does not commit, a second, different one does. */
  lemma CommitAfterTwo<T>(a: T, b: T)
    requires a != b
    ensures var first := SelectWithLimit(Initial(), a, Some(2));
      !first.reachedLimit && first.selection == {a}
      && var second := SelectWithLimit(first.state, b, Some(2));
      second.reachedLimit && second.selection == {a, b}
  {
    var first := SelectWithLimit(Initial<T>(), a, Some(2));
    assert first.selection == {a};
    var second := SelectWithLimit(first.state, b, Some(2));
    assert second.selection == {a, b};
    assert |{a, b}| == 2 by {
      assert {a, b} == {a} + {b};
    }
  }

  /** The operations on a selection, as one alphabet. */
  datatype Op<T> = SelectOp(c: T) | SelectLimitedOp(c: T, max: Option<int>) | ClearOp

  function Apply<T>(st: SelectionState<T>, op: Op<T>): SelectionState<T> {
    match op
    case SelectOp(c) => Select(st, c).0
    case SelectLimitedOp(c, max) => SelectWithLimit(st, c, max).state
    case ClearOp => Clear(st)
  }

  /** No operation removes a single element: each either keeps everything
      that was selected or empties the selection. */
  lemma NoSingleRemoval<T>(st: SelectionState<T>, op: Op<T>)
    ensures st.selection <= Apply(st, op).selection || Apply(st, op).selection == {}
  {
  }
}
