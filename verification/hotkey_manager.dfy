/** The hotkey dispatcher (Sources/WManager/HotkeyManager.swift) as a pure
    transition: an event and the dispatcher's state in, the new state, the
    side effects to perform and whether the event is swallowed out.

    The overlay window is reduced to its visibility flag; showing it makes
    it visible and hiding it makes it invisible. Whether a screen is
    available for the overlay (the focused window's screen, or the main
    one) is an input. The window-manager and overlay-controller calls are
    returned as commands, in the order the source makes them. */
module HotkeyManager {
  import opened Wrappers
  import Keys
  import Settings
  import Slots
  import Sel = OverlaySelection

  datatype EventKind =
    | TapDisabledByTimeout | TapDisabledByUserInput
    | KeyDown | LeftMouseDown | RightMouseDown | OtherEvent

  /** The calls the dispatcher makes on the outside world. */
  datatype Command =
    | ReenableTap
    | TileLeft | TileRight | Maximize
    | ShowOverlay(shown: set<Slots.Slot>)
    | HideOverlay
    | UpdateSelection(selected: set<Slots.Slot>)
    | ApplySlots(slots: set<Slots.Slot>)

  datatype DispatchState = DispatchState(overlayVisible: bool, selection: Sel.SelectionState<Slots.Slot>)

  /** The next state, the calls made, and whether the event is swallowed
      (`nil` in the source) rather than passed on. */
  datatype Outcome = Outcome(state: DispatchState, commands: seq<Command>, consumed: bool)

  /** The state at start-up: overlay hidden, nothing selected. */
  function InitialState(): (st: DispatchState)
    ensures !st.overlayVisible && st.selection.selection == {}
  {
    DispatchState(false, Sel.Initial())
  }

  // ---------------------------------------------------------------------
  // Modifiers

  /** The flags the hotkey check looks at. */
  const RelevantFlags: set<Keys.EventFlag> :=
    {Keys.MaskCommand, Keys.MaskAlternate, Keys.MaskControl, Keys.MaskShift}

  /** `matchesHotkeyModifiers`, for a given required set and policy: among
      command, option, control and shift, exactly the required ones are
      held, or at least them when additional modifiers are allowed. */
  function MatchesModifiers(flags: set<Keys.EventFlag>, required: set<Keys.EventFlag>, allowAdditional: bool): (b: bool)
    ensures b && !allowAdditional ==> forall f :: f in RelevantFlags ==> (f in flags <==> f in required)
    ensures b ==> forall f :: f in required && f in RelevantFlags ==> f in flags
    ensures b <==> required <= RelevantFlags
                   && (forall f :: f in required ==> f in flags)
                   && (!allowAdditional ==> forall f :: f in RelevantFlags && f in flags ==> f in required)
  {
    var filtered := flags * RelevantFlags;
    if allowAdditional then required <= filtered else filtered == required
  }

  /** The check with the configured modifiers and policy. */
  function MatchesHotkeyModifiers(flags: set<Keys.EventFlag>): (b: bool)
    ensures b ==> Keys.MaskCommand in flags && Keys.MaskAlternate in flags
    ensures b ==> Keys.MaskControl !in flags && Keys.MaskShift !in flags
    ensures b <==> Keys.MaskCommand in flags && Keys.MaskAlternate in flags
                   && Keys.MaskControl !in flags && Keys.MaskShift !in flags
  {
    MatchesModifiers(flags, Settings.HotkeyModifiers, Settings.AllowAdditionalModifiers)
  }

  /** Flags other than the four modifiers never change the answer. */
  lemma IrrelevantFlagsIgnored(flags: set<Keys.EventFlag>, extra: set<Keys.EventFlag>,
                               required: set<Keys.EventFlag>, allowAdditional: bool)
    requires extra !! RelevantFlags
    ensures MatchesModifiers(flags + extra, required, allowAdditional)
         == MatchesModifiers(flags, required, allowAdditional)
  {
    assert (flags + extra) * RelevantFlags == flags * RelevantFlags;
  }

  /** With additional modifiers allowed, holding more keys still matches. */
  lemma AdditionalModifiersMonotone(flags: set<Keys.EventFlag>, more: set<Keys.EventFlag>, required: set<Keys.EventFlag>)
    requires MatchesModifiers(flags, required, true)
    ensures MatchesModifiers(flags + more, required, true)
  {
    assert flags * RelevantFlags <= (flags + more) * RelevantFlags;
  }

  /** The configured hotkey is command-option and nothing else of the four:
      caps lock or fn do not matter, shift does. */
  lemma HotkeyModifiersExamples()
    ensures MatchesHotkeyModifiers({Keys.MaskCommand, Keys.MaskAlternate})
    ensures MatchesHotkeyModifiers({Keys.MaskCommand, Keys.MaskAlternate, Keys.MaskAlphaShift, Keys.MaskSecondaryFn})
    ensures !MatchesHotkeyModifiers({Keys.MaskCommand, Keys.MaskAlternate, Keys.MaskShift})
    ensures !MatchesHotkeyModifiers({Keys.MaskCommand})
  {
    IrrelevantFlagsIgnored({Keys.MaskCommand, Keys.MaskAlternate}, {Keys.MaskAlphaShift, Keys.MaskSecondaryFn},
                           Settings.HotkeyModifiers, Settings.AllowAdditionalModifiers);
  }

  // ---------------------------------------------------------------------
  // Transitions

  /** `clearOverlaySelection`: empty the selection and, when the overlay is
      showing, tell it so. */
  function ClearOverlaySelection(st: DispatchState): (r: (DispatchState, seq<Command>))
    ensures r.0.selection.selection == {} && r.0.overlayVisible == st.overlayVisible
    ensures st.overlayVisible ==> r.1 == [UpdateSelection({})]
    ensures !st.overlayVisible ==> r.1 == []
  {
    var cleared := st.(selection := Sel.Clear(st.selection));
    (cleared, if st.overlayVisible then [UpdateSelection({})] else [])
  }

  /** Clear the selection, then hide the overlay. */
  function ClearAndHide(st: DispatchState): (r: Outcome)
    ensures r.state == InitialState() && r.consumed
    ensures r.commands == (if st.overlayVisible then [UpdateSelection({})] else []) + [HideOverlay]
  {
    var (cleared, cmds) := ClearOverlaySelection(st);
    Outcome(cleared.(overlayVisible := false), cmds + [HideOverlay], true)
  }

  /** `handleOverlayKey`: Escape clears and hides; a slot key joins the
      selection, which is shown and applied, and commits (hide and clear)
      once it reaches the configured count; any other key clears the
      selection and is passed on. */
  function HandleOverlayKey(st: DispatchState, k: Keys.KeyCode): (r: Outcome)
    ensures k == Keys.Escape ==> r == ClearAndHide(st)
    ensures r.consumed <==> k == Keys.Escape || Slots.FromKeyCode(k).Some?
    ensures !r.consumed ==> r.state == st.(selection := Sel.Clear(st.selection))
  {
    if k == Keys.Escape then ClearAndHide(st)
    else match Slots.FromKeyCode(k)
      case Some(slot) =>
        var result := Sel.SelectWithLimit(st.selection, slot, Settings.OverlaySelectionMaxCount);
        var shown := [UpdateSelection(result.selection), ApplySlots(result.selection)];
        if result.reachedLimit then
          Outcome(DispatchState(false, Sel.Clear(result.state)), shown + [HideOverlay], true)
        else
          Outcome(st.(selection := result.state), shown, true)
      case None =>
        var (cleared, cmds) := ClearOverlaySelection(st);
        Outcome(cleared, cmds, false)
  }

  /** `handleEvent`. `flags` and `k` are the event's modifier flags and key
      code (read only for key-down events); `screenAvailable` says whether
      there is a screen to show the overlay on. */
  function HandleEvent(st: DispatchState, kind: EventKind, flags: set<Keys.EventFlag>, k: Keys.KeyCode,
                       screenAvailable: bool): (r: Outcome)
    ensures kind != KeyDown ==> r.state == st && !r.consumed
    ensures r.consumed ==> kind == KeyDown
  {
    if kind == TapDisabledByTimeout || kind == TapDisabledByUserInput then
      Outcome(st, [ReenableTap], false)
    else if kind != KeyDown then
      Outcome(st, [], false)
    else if st.overlayVisible then
      if MatchesHotkeyModifiers(flags) && k == Keys.T then ClearAndHide(st)
      else HandleOverlayKey(st, k)
    else if !MatchesHotkeyModifiers(flags) then
      Outcome(st, [], false)
    else if k == Keys.LeftArrow then
      Outcome(st, [TileLeft], true)
    else if k == Keys.RightArrow then
      Outcome(st, [TileRight], true)
    else if k == Keys.UpArrow then
      Outcome(st, [Maximize], true)
    else if k == Keys.T then
      var (cleared, cmds) := ClearOverlaySelection(st);
      if screenAvailable then
        Outcome(cleared.(overlayVisible := true), cmds + [ShowOverlay(cleared.selection.selection)], true)
      else
        Outcome(cleared, cmds, true)
    else
      Outcome(st, [], false)
  }

  // ---------------------------------------------------------------------
  // Properties of the dispatcher

  /** A disabled tap is re-enabled and the event passed on; nothing else
      happens. */
  lemma TapDisabledReenables(st: DispatchState, kind: EventKind, flags: set<Keys.EventFlag>, k: Keys.KeyCode, screen: bool)
    requires kind == TapDisabledByTimeout || kind == TapDisabledByUserInput
    ensures HandleEvent(st, kind, flags, k, screen) == Outcome(st, [ReenableTap], false)
  {
  }

  /** Every other event that is not a key press is passed on untouched:
      the mouse-down handling in the overlay branch can never run. */
  lemma NonKeyEventsPassThrough(st: DispatchState, kind: EventKind, flags: set<Keys.EventFlag>, k: Keys.KeyCode, screen: bool)
    requires kind in {LeftMouseDown, RightMouseDown, OtherEvent}
    ensures HandleEvent(st, kind, flags, k, screen) == Outcome(st, [], false)
  {
  }

  /** With the overlay hidden, a key without the hotkey modifiers, or with
      them but not one of the four handled keys, is passed on untouched. */
  lemma HiddenUnhandledPassesThrough(st: DispatchState, flags: set<Keys.EventFlag>, k: Keys.KeyCode, screen: bool)
    requires !st.overlayVisible
    requires !MatchesHotkeyModifiers(flags) || k !in {Keys.LeftArrow, Keys.RightArrow, Keys.UpArrow, Keys.T}
    ensures HandleEvent(st, KeyDown, flags, k, screen) == Outcome(st, [], false)
  {
  }

  /** With the overlay hidden, the hotkey arrows tile and are swallowed,
      leaving the state alone. */
  lemma HiddenArrowsTile(st: DispatchState, flags: set<Keys.EventFlag>, screen: bool)
    requires !st.overlayVisible && MatchesHotkeyModifiers(flags)
    ensures HandleEvent(st, KeyDown, flags, Keys.LeftArrow, screen) == Outcome(st, [TileLeft], true)
    ensures HandleEvent(st, KeyDown, flags, Keys.RightArrow, screen) == Outcome(st, [TileRight], true)
    ensures HandleEvent(st, KeyDown, flags, Keys.UpArrow, screen) == Outcome(st, [Maximize], true)
  {
  }

  /** The hotkey T toggles the overlay: while hidden it clears the
      selection and shows the overlay, empty, when there is a screen; while
      showing it clears and hides. Either way the key is swallowed. */
  lemma HotkeyTogglesOverlay(st: DispatchState, flags: set<Keys.EventFlag>, screen: bool)
    requires MatchesHotkeyModifiers(flags)
    ensures var r := HandleEvent(st, KeyDown, flags, Keys.T, screen);
      r.consumed && r.state.selection.selection == {}
      && (st.overlayVisible ==> !r.state.overlayVisible && r.commands == [UpdateSelection({}), HideOverlay])
      && (!st.overlayVisible && screen ==> r.state.overlayVisible && r.commands == [ShowOverlay({})])
      && (!st.overlayVisible && !screen ==> !r.state.overlayVisible && r.commands == [])
  {
  }

  /** With the overlay showing, Escape clears, hides and is swallowed,
      whatever the modifiers. */
  lemma OverlayEscapeDismisses(st: DispatchState, flags: set<Keys.EventFlag>, screen: bool)
    requires st.overlayVisible
    ensures HandleEvent(st, KeyDown, flags, Keys.Escape, screen)
         == Outcome(InitialState(), [UpdateSelection({}), HideOverlay], true)
  {
  }

  /** With the overlay showing, a slot key adds its slot, shows and applies
      the grown selection, and is swallowed; reaching the count also hides
      the overlay and empties the selection. */
  lemma OverlaySlotKeySelects(st: DispatchState, flags: set<Keys.EventFlag>, s: Slots.Slot, screen: bool)
    requires st.overlayVisible
    ensures var r := HandleEvent(st, KeyDown, flags, Slots.KeyCodeOf(s), screen);
      var grown := st.selection.selection + {s};
      (|grown| >= 2 ==> r == Outcome(InitialState(), [UpdateSelection(grown), ApplySlots(grown), HideOverlay], true))
      && (|grown| < 2 ==> r == Outcome(DispatchState(true, Sel.SelectionState(grown)), [UpdateSelection(grown), ApplySlots(grown)], true))
  {
    var k := Slots.KeyCodeOf(s);
    assert k != Keys.T && k != Keys.Escape && Slots.FromKeyCode(k) == Some(s) by {
      Slots.FromOwnKeyCode(s);
    }
    assert HandleEvent(st, KeyDown, flags, k, screen) == HandleOverlayKey(st, k);
  }

  /** With the overlay showing, any other key empties the selection, keeps
      the overlay, and is passed on. */
  lemma OverlayOtherKeyPassesThrough(st: DispatchState, flags: set<Keys.EventFlag>, k: Keys.KeyCode, screen: bool)
    requires st.overlayVisible
    requires k != Keys.Escape && Slots.FromKeyCode(k).None?
    requires !(MatchesHotkeyModifiers(flags) && k == Keys.T)
    ensures HandleEvent(st, KeyDown, flags, k, screen)
         == Outcome(DispatchState(true, Sel.SelectionState({})), [UpdateSelection({})], false)
  {
  }

  /** What the dispatcher keeps true between events: a hidden overlay has
      nothing selected, and a selection never holds as many slots as the
      commit count. */
  predicate Invariant(st: DispatchState) {
    (!st.overlayVisible ==> st.selection.selection == {}) && |st.selection.selection| < 2
  }

  lemma InitialStateInvariant()
    ensures Invariant(InitialState())
  {
  }

  /** Every event keeps the invariant. */
  lemma HandleEventPreservesInvariant(st: DispatchState, kind: EventKind, flags: set<Keys.EventFlag>, k: Keys.KeyCode, screen: bool)
    requires Invariant(st)
    ensures Invariant(HandleEvent(st, kind, flags, k, screen).state)
  {
    if kind == KeyDown && st.overlayVisible && k != Keys.Escape && !(MatchesHotkeyModifiers(flags) && k == Keys.T) {
      match Slots.FromKeyCode(k)
      case Some(s) =>
        Sel.SelectGrowsByOne(st.selection, s);
        OverlaySlotKeySelects(st, flags, s, screen);
      case None =>
    }
  }

  /** The commit scenario: from a hidden overlay with nothing selected,
      hotkey T shows the overlay, a first slot key is shown and applied
      alone, a second, different one applies both, hides the overlay and
      leaves nothing selected. */
  lemma TwoSlotsCommit(st: DispatchState, flags: set<Keys.EventFlag>, a: Slots.Slot, b: Slots.Slot)
    requires Invariant(st) && !st.overlayVisible
    requires MatchesHotkeyModifiers(flags) && a != b
    ensures var s1 := HandleEvent(st, KeyDown, flags, Keys.T, true);
      var s2 := HandleEvent(s1.state, KeyDown, {}, Slots.KeyCodeOf(a), true);
      var s3 := HandleEvent(s2.state, KeyDown, {}, Slots.KeyCodeOf(b), true);
      s1.commands == [ShowOverlay({})]
      && s2.commands == [UpdateSelection({a}), ApplySlots({a})] && s2.state.overlayVisible
      && s3.commands == [UpdateSelection({a, b}), ApplySlots({a, b}), HideOverlay]
      && s3.state == InitialState()
  {
    var s1 := HandleEvent(st, KeyDown, flags, Keys.T, true);
    assert s1.state == DispatchState(true, Sel.SelectionState({})) && s1.commands == [ShowOverlay({})] by {
      HotkeyTogglesOverlay(st, flags, true);
    }
    var s2 := HandleEvent(s1.state, KeyDown, {}, Slots.KeyCodeOf(a), true);
    assert s2 == Outcome(DispatchState(true, Sel.SelectionState({a})), [UpdateSelection({a}), ApplySlots({a})], true) by {
      FirstSlotShown(s1.state, a);
    }
    SecondSlotCommits(s2.state, a, b);
  }

  /** A second, different slot key on a showing overlay commits both. */
  lemma SecondSlotCommits(st: DispatchState, a: Slots.Slot, b: Slots.Slot)
    requires st == DispatchState(true, Sel.SelectionState({a})) && a != b
    ensures HandleEvent(st, KeyDown, {}, Slots.KeyCodeOf(b), true)
         == Outcome(InitialState(), [UpdateSelection({a, b}), ApplySlots({a, b}), HideOverlay], true)
  {
    assert st.selection.selection + {b} == {a, b};
    assert |{a, b}| == 2 by {
      assert {a, b} == {a} + {b};
    }
    OverlaySlotKeySelects(st, {}, b, true);
  }

  /** The first slot key on an empty, showing overlay. */
  lemma FirstSlotShown(st: DispatchState, a: Slots.Slot)
    requires st == DispatchState(true, Sel.SelectionState({}))
    ensures HandleEvent(st, KeyDown, {}, Slots.KeyCodeOf(a), true)
         == Outcome(DispatchState(true, Sel.SelectionState({a})), [UpdateSelection({a}), ApplySlots({a})], true)
  {
    OverlaySlotKeySelects(st, {}, a, true);
    assert st.selection.selection + {a} == {a};
  }
}
