/** Persisted layout presets (Sources/WManager/LayoutStore.swift): four
    presets shared by all desktops, optional per-desktop preset lists keyed
    by the decimal space identifier, and the active preset index of each.
    The user-defaults store and the JSON coder are parameters: the store is
    an optional byte string, the coder a pair of partial functions. */
module LayoutStore {
  import opened Wrappers
  import opened Weights
  import GridCells
  import Settings

  datatype LayoutScope = AllDesktops | ThisDesktop

  datatype LayoutConfig = LayoutConfig(weights: GridWeight, scope: LayoutScope)

  datatype StoreState = StoreState(
    globalLayouts: seq<LayoutConfig>,
    desktopLayouts: map<string, seq<LayoutConfig>>,
    globalActiveIndex: int,
    desktopActiveIndex: map<string, int>)

  type Bytes = seq<bv8>

  const PresetCount: int := Settings.LayoutPresetCount

  // ---------------------------------------------------------------------
  // Normal forms

  /** A grid weight as `normalized()` leaves it: 4 columns, 3 rows, each
      weight in range. */
  predicate OnGrid(g: GridWeight) {
    WellFormed(g) && |g.columns| == GridCells.MaxColumns && |g.rows| == GridCells.MaxRows
  }

  /** A preset list as `normalizedLayouts` leaves it. */
  predicate WellFormedLayouts(ls: seq<LayoutConfig>, scope: LayoutScope) {
    |ls| == PresetCount
    && forall i :: 0 <= i < |ls| ==> ls[i].scope == scope && OnGrid(ls[i].weights)
  }

  /** A state as `normalizeState` leaves it. */
  predicate WellFormedState(s: StoreState) {
    WellFormedLayouts(s.globalLayouts, AllDesktops)
    && (forall k :: k in s.desktopLayouts ==> WellFormedLayouts(s.desktopLayouts[k], ThisDesktop))
    && 0 <= s.globalActiveIndex < PresetCount
    && (forall k :: k in s.desktopActiveIndex ==> 0 <= s.desktopActiveIndex[k] < PresetCount)
  }

  /** A normalised grid weight is its own normalisation. */
  lemma OnGridFixed(g: GridWeight)
    requires OnGrid(g)
    ensures NormalizedToGrid(g) == g
  {
    NormalizedFixedPoint(g, GridCells.MaxColumns, GridCells.MaxRows);
  }

  /** `LayoutConfig.default(scope:)`: the default grid weight, normalised,
      which is the three-by-two default preset. */
  function DefaultConfig(scope: LayoutScope): (c: LayoutConfig)
    ensures c.scope == scope && OnGrid(c.weights)
    ensures c.weights.columns == DefaultPreset().columnWeights
    ensures c.weights.rows == DefaultPreset().rowWeights
  {
    DefaultGridWeightIsDefaultPreset();
    LayoutConfig(NormalizedToGrid(DefaultGridWeight()), scope)
  }

  /** `clampIndex`: into `0 ..< layoutPresetCount`, the identity there. */
  function ClampIndex(index: int): (r: nat)
    ensures r < PresetCount
    ensures 0 <= index < PresetCount ==> r == index
    ensures index < 0 ==> r == 0
    ensures index >= PresetCount ==> r == PresetCount - 1
  {
    MinInt(MaxInt(index, 0), MaxInt(PresetCount - 1, 0))
  }

  /** `normalizedLayouts`: every stored preset normalised and re-scoped,
      the list cut to the preset count, then padded with defaults. */
  function NormalizedLayouts(ls: seq<LayoutConfig>, scope: LayoutScope): (r: seq<LayoutConfig>)
    ensures WellFormedLayouts(r, scope)
    ensures forall i :: 0 <= i < PresetCount && i < |ls| ==>
      r[i] == LayoutConfig(NormalizedToGrid(ls[i].weights), scope)
    ensures forall i :: |ls| <= i < PresetCount ==> r[i] == DefaultConfig(scope)
  {
    var normalized := seq(|ls|, i requires 0 <= i < |ls| => LayoutConfig(NormalizedToGrid(ls[i].weights), scope));
    var cut := if |normalized| > PresetCount then normalized[..PresetCount] else normalized;
    cut + seq(PresetCount - |cut|, _ => DefaultConfig(scope))
  }

  /** A normalised preset list is its own normalisation. */
  lemma NormalizedLayoutsFixedPoint(ls: seq<LayoutConfig>, scope: LayoutScope)
    requires WellFormedLayouts(ls, scope)
    ensures NormalizedLayouts(ls, scope) == ls
  {
    var r := NormalizedLayouts(ls, scope);
    forall i | 0 <= i < |ls| ensures r[i] == ls[i] {
      OnGridFixed(ls[i].weights);
    }
  }

  /** Normalising a preset list twice is normalising it once. */
  lemma NormalizedLayoutsIdempotent(ls: seq<LayoutConfig>, scope: LayoutScope)
    ensures NormalizedLayouts(NormalizedLayouts(ls, scope), scope) == NormalizedLayouts(ls, scope)
  {
    NormalizedLayoutsFixedPoint(NormalizedLayouts(ls, scope), scope);
  }

  /** `normalizeState`: the well-formed state with the same desktops. */
  function NormalizeState(s: StoreState): (r: StoreState)
    ensures WellFormedState(r)
    ensures r.desktopLayouts.Keys == s.desktopLayouts.Keys
    ensures r.desktopActiveIndex.Keys == s.desktopActiveIndex.Keys
    ensures r.globalLayouts == NormalizedLayouts(s.globalLayouts, AllDesktops)
    ensures forall k :: k in s.desktopLayouts ==>
      r.desktopLayouts[k] == NormalizedLayouts(s.desktopLayouts[k], ThisDesktop)
    ensures r.globalActiveIndex == ClampIndex(s.globalActiveIndex)
    ensures forall k :: k in s.desktopActiveIndex ==>
      r.desktopActiveIndex[k] == ClampIndex(s.desktopActiveIndex[k])
  {
    StoreState(
      NormalizedLayouts(s.globalLayouts, AllDesktops),
      map k | k in s.desktopLayouts :: NormalizedLayouts(s.desktopLayouts[k], ThisDesktop),
      ClampIndex(s.globalActiveIndex),
      map k | k in s.desktopActiveIndex :: ClampIndex(s.desktopActiveIndex[k]))
  }

  /** A well-formed state is its own normalisation. */
  lemma NormalizeStateFixedPoint(s: StoreState)
    requires WellFormedState(s)
    ensures NormalizeState(s) == s
  {
    var r := NormalizeState(s);
    NormalizedLayoutsFixedPoint(s.globalLayouts, AllDesktops);
    forall k | k in s.desktopLayouts ensures r.desktopLayouts[k] == s.desktopLayouts[k] {
      NormalizedLayoutsFixedPoint(s.desktopLayouts[k], ThisDesktop);
    }
    assert r.desktopLayouts == s.desktopLayouts;
    assert r.desktopActiveIndex == s.desktopActiveIndex;
  }

  /** Normalising a state twice is normalising it once. */
  lemma NormalizeStateIdempotent(s: StoreState)
    ensures NormalizeState(NormalizeState(s)) == NormalizeState(s)
  {
    NormalizeStateFixedPoint(NormalizeState(s));
  }

  /** `defaultState()`: four default presets for all desktops, preset 0
      active, no per-desktop data. */
  function DefaultState(): (r: StoreState)
    ensures WellFormedState(r)
    ensures forall i :: 0 <= i < |r.globalLayouts| ==> r.globalLayouts[i] == DefaultConfig(AllDesktops)
    ensures r.globalActiveIndex == 0
    ensures r.desktopLayouts == map[] && r.desktopActiveIndex == map[]
  {
    StoreState(seq(PresetCount, _ => DefaultConfig(AllDesktops)), map[], 0, map[])
  }

  /** The default state is already normalised. */
  lemma DefaultStateNormalized()
    ensures NormalizeState(DefaultState()) == DefaultState()
  {
    NormalizeStateFixedPoint(DefaultState());
  }

  // ---------------------------------------------------------------------
  // Space keys

  function Digit(d: nat): (c: char)
    requires d < 10
  {
    "0123456789"[d]
  }

  /** `String(spaceID)`: the decimal numeral, without leading zeros. */
  function Decimal(n: nat): (s: string)
    ensures 1 <= |s|
    ensures n < 10 <==> |s| == 1
    ensures n >= 10 ==> s[0] != '0'
    decreases n
  {
    if n < 10 then [Digit(n)] else Decimal(n / 10) + [Digit(n % 10)]
  }

  lemma DigitInjective(a: nat, b: nat)
    requires a < 10 && b < 10 && Digit(a) == Digit(b)
    ensures a == b
  {
  }

  /** Distinct spaces get distinct keys. */
  lemma {:induction false} DecimalInjective(a: nat, b: nat)
    requires Decimal(a) == Decimal(b)
    ensures a == b
    decreases a
  {
    if a < 10 {
      DigitInjective(a, b);
    } else {
      var sa, sb := Decimal(a), Decimal(b);
      assert sa[|sa| - 1] == Digit(a % 10) && sb[|sb| - 1] == Digit(b % 10);
      DigitInjective(a % 10, b % 10);
      assert sa[..|sa| - 1] == Decimal(a / 10);
      assert sb[..|sb| - 1] == Decimal(b / 10);
      DecimalInjective(a / 10, b / 10);
    }
  }

  /** `spaceKey`: no key without a space. */
  function SpaceKey(spaceID: Option<nat>): (r: Option<string>)
    ensures r.None? <==> spaceID.None?
    ensures r.Some? ==> r.value == Decimal(spaceID.value)
  {
    match spaceID
    case None => None
    case Some(id) => Some(Decimal(id))
  }

  /** Two spaces share a key only when they are the same space. */
  lemma SpaceKeyInjective(a: Option<nat>, b: Option<nat>)
    requires SpaceKey(a) == SpaceKey(b)
    ensures a == b
  {
    if a.Some? {
      DecimalInjective(a.value, b.value);
    }
  }

  /** Whether the space has its own entry in a map keyed by space key. */
  predicate HasEntry<V>(m: map<string, V>, spaceID: Option<nat>) {
    spaceID.Some? && Decimal(spaceID.value) in m
  }

  // ---------------------------------------------------------------------
  // Active preset

  /** `activeLayoutIndex`: the clamped stored index, the desktop's own one
      when it has one, otherwise the global one. */
  function ActiveLayoutIndex(s: StoreState, scope: LayoutScope, spaceID: Option<nat>): (r: nat)
    ensures r < PresetCount
    ensures scope.ThisDesktop? && HasEntry(s.desktopActiveIndex, spaceID) ==>
      r == ClampIndex(s.desktopActiveIndex[Decimal(spaceID.value)])
    ensures !(scope.ThisDesktop? && HasEntry(s.desktopActiveIndex, spaceID)) ==>
      r == ClampIndex(s.globalActiveIndex)
  {
    match scope
    case AllDesktops => ClampIndex(s.globalActiveIndex)
    case ThisDesktop =>
      match SpaceKey(spaceID)
      case Some(key) =>
        if key in s.desktopActiveIndex then ClampIndex(s.desktopActiveIndex[key])
        else ClampIndex(s.globalActiveIndex)
      case None => ClampIndex(s.globalActiveIndex)
  }

  /** `setActiveLayoutIndex(_:scope:spaceID:in:)`: records the clamped
      index globally or for the desktop; without a space the per-desktop
      request is dropped. Presets are never touched. */
  function SetActiveLayoutIndex(s: StoreState, index: int, scope: LayoutScope, spaceID: Option<nat>): (r: StoreState)
    ensures r.globalLayouts == s.globalLayouts && r.desktopLayouts == s.desktopLayouts
    ensures scope.AllDesktops? ==>
      r.desktopActiveIndex == s.desktopActiveIndex && r.globalActiveIndex == ClampIndex(index)
    ensures scope.ThisDesktop? && spaceID.None? ==> r == s
    ensures scope.ThisDesktop? && spaceID.Some? ==>
      r.globalActiveIndex == s.globalActiveIndex
      && r.desktopActiveIndex.Keys == s.desktopActiveIndex.Keys + {Decimal(spaceID.value)}
      && r.desktopActiveIndex[Decimal(spaceID.value)] == ClampIndex(index)
      && forall k :: k in s.desktopActiveIndex && k != Decimal(spaceID.value) ==>
           r.desktopActiveIndex[k] == s.desktopActiveIndex[k]
  {
    var clamped := ClampIndex(index);
    match scope
    case AllDesktops => s.(globalActiveIndex := clamped)
    case ThisDesktop =>
      match SpaceKey(spaceID)
      case None => s
      case Some(key) => s.(desktopActiveIndex := s.desktopActiveIndex[key := clamped])
  }

  /** Setting the index and reading it back in the same scope gives the
      clamped index, unless a per-desktop request had no space. */
  lemma SetThenActive(s: StoreState, index: int, scope: LayoutScope, spaceID: Option<nat>)
    requires scope.AllDesktops? || spaceID.Some?
    ensures ActiveLayoutIndex(SetActiveLayoutIndex(s, index, scope, spaceID), scope, spaceID) == ClampIndex(index)
  {
  }

  /** Setting one desktop's index leaves every other desktop's reading, and
      the global one, as it was. */
  lemma SetActiveOtherDesktop(s: StoreState, index: int, spaceID: Option<nat>, other: Option<nat>, scope: LayoutScope)
    requires spaceID != other
    ensures ActiveLayoutIndex(SetActiveLayoutIndex(s, index, ThisDesktop, spaceID), scope, other)
         == ActiveLayoutIndex(s, scope, other)
  {
    var r := SetActiveLayoutIndex(s, index, ThisDesktop, spaceID);
    if spaceID.Some? && other.Some? {
      if Decimal(spaceID.value) == Decimal(other.value) {
        DecimalInjective(spaceID.value, other.value);
      }
      assert HasEntry(r.desktopActiveIndex, other) <==> HasEntry(s.desktopActiveIndex, other);
    }
  }

  /** In a normalised state the active index is the stored one, unclamped. */
  lemma ActiveIndexStored(s: StoreState, scope: LayoutScope, spaceID: Option<nat>)
    requires WellFormedState(s)
    ensures ActiveLayoutIndex(s, scope, spaceID) ==
      if scope.ThisDesktop? && HasEntry(s.desktopActiveIndex, spaceID)
      then s.desktopActiveIndex[Decimal(spaceID.value)] else s.globalActiveIndex
  {
  }

  // ---------------------------------------------------------------------
  // Preset contents

  /** `layoutConfig`: the normalised preset at the clamped index, taken from
      the desktop's own list when it has one; otherwise the global preset,
      relabelled as per-desktop. */
  function LayoutConfigAt(s: StoreState, index: int, scope: LayoutScope, spaceID: Option<nat>): (c: LayoutConfig)
    ensures c.scope == scope && OnGrid(c.weights)
  {
    var clamped := ClampIndex(index);
    match scope
    case AllDesktops => NormalizedLayouts(s.globalLayouts, AllDesktops)[clamped]
    case ThisDesktop =>
      match SpaceKey(spaceID)
      case Some(key) =>
        if key in s.desktopLayouts then NormalizedLayouts(s.desktopLayouts[key], ThisDesktop)[clamped]
        else NormalizedLayouts(s.globalLayouts, AllDesktops)[clamped].(scope := ThisDesktop)
      case None => NormalizedLayouts(s.globalLayouts, AllDesktops)[clamped].(scope := ThisDesktop)
  }

  /** A desktop without its own list sees the global preset under its own
      scope. */
  lemma LayoutConfigFallback(s: StoreState, index: int, spaceID: Option<nat>)
    requires !HasEntry(s.desktopLayouts, spaceID)
    ensures LayoutConfigAt(s, index, ThisDesktop, spaceID)
         == LayoutConfigAt(s, index, AllDesktops, spaceID).(scope := ThisDesktop)
  {
  }

  /** In a normalised state the preset read is the stored one. */
  lemma LayoutConfigStored(s: StoreState, index: int, scope: LayoutScope, spaceID: Option<nat>)
    requires WellFormedState(s)
    ensures scope.AllDesktops? ==>
      LayoutConfigAt(s, index, scope, spaceID) == s.globalLayouts[ClampIndex(index)]
    ensures scope.ThisDesktop? && HasEntry(s.desktopLayouts, spaceID) ==>
      LayoutConfigAt(s, index, scope, spaceID) == s.desktopLayouts[Decimal(spaceID.value)][ClampIndex(index)]
  {
    NormalizedLayoutsFixedPoint(s.globalLayouts, AllDesktops);
    if HasEntry(s.desktopLayouts, spaceID) {
      NormalizedLayoutsFixedPoint(s.desktopLayouts[Decimal(spaceID.value)], ThisDesktop);
    }
  }

  /** `updateLayoutConfig`: stores the normalised weights, under the given
      scope, at the clamped index of the global list or of the desktop's
      list (created from defaults when missing); without a space the
      per-desktop request is dropped. Active indices are never touched. */
  function UpdateLayoutConfig(s: StoreState, config: LayoutConfig, index: int, scope: LayoutScope, spaceID: Option<nat>): (r: StoreState)
    ensures r.globalActiveIndex == s.globalActiveIndex && r.desktopActiveIndex == s.desktopActiveIndex
    ensures scope.AllDesktops? ==>
      r.desktopLayouts == s.desktopLayouts && WellFormedLayouts(r.globalLayouts, AllDesktops)
    ensures scope.ThisDesktop? && spaceID.None? ==> r == s
    ensures scope.ThisDesktop? && spaceID.Some? ==>
      r.globalLayouts == s.globalLayouts
      && r.desktopLayouts.Keys == s.desktopLayouts.Keys + {Decimal(spaceID.value)}
      && WellFormedLayouts(r.desktopLayouts[Decimal(spaceID.value)], ThisDesktop)
      && forall k :: k in s.desktopLayouts && k != Decimal(spaceID.value) ==>
           r.desktopLayouts[k] == s.desktopLayouts[k]
  {
    var clamped := ClampIndex(index);
    var normalizedConfig := LayoutConfig(NormalizedToGrid(config.weights), scope);
    match scope
    case AllDesktops =>
      s.(globalLayouts := NormalizedLayouts(s.globalLayouts, AllDesktops)[clamped := normalizedConfig])
    case ThisDesktop =>
      match SpaceKey(spaceID)
      case None => s
      case Some(key) =>
        var existing := if key in s.desktopLayouts then s.desktopLayouts[key] else [];
        var layouts := NormalizedLayouts(existing, ThisDesktop)[clamped := normalizedConfig];
        s.(desktopLayouts := s.desktopLayouts[key := layouts])
  }

  /** Reading back the preset just written gives the normalised weights
      under the scope written, unless a per-desktop request had no space. */
  lemma UpdateThenRead(s: StoreState, config: LayoutConfig, index: int, scope: LayoutScope, spaceID: Option<nat>)
    requires scope.AllDesktops? || spaceID.Some?
    ensures LayoutConfigAt(UpdateLayoutConfig(s, config, index, scope, spaceID), index, scope, spaceID)
         == LayoutConfig(NormalizedToGrid(config.weights), scope)
  {
    var r := UpdateLayoutConfig(s, config, index, scope, spaceID);
    match scope
    case AllDesktops =>
      NormalizedLayoutsFixedPoint(r.globalLayouts, AllDesktops);
    case ThisDesktop =>
      NormalizedLayoutsFixedPoint(r.desktopLayouts[Decimal(spaceID.value)], ThisDesktop);
  }

  /** The other presets of the list written keep what they read before,
      when the list existed (always so for the global list). */
  lemma UpdateKeepsOtherPresets(s: StoreState, config: LayoutConfig, index: int, other: int, scope: LayoutScope, spaceID: Option<nat>)
    requires ClampIndex(other) != ClampIndex(index)
    requires scope.AllDesktops? || HasEntry(s.desktopLayouts, spaceID)
    ensures LayoutConfigAt(UpdateLayoutConfig(s, config, index, scope, spaceID), other, scope, spaceID)
         == LayoutConfigAt(s, other, scope, spaceID)
  {
    var r := UpdateLayoutConfig(s, config, index, scope, spaceID);
    match scope
    case AllDesktops =>
      NormalizedLayoutsFixedPoint(r.globalLayouts, AllDesktops);
    case ThisDesktop =>
      NormalizedLayoutsFixedPoint(r.desktopLayouts[Decimal(spaceID.value)], ThisDesktop);
  }

  /** The first per-desktop write creates the desktop's list from default
      presets, not from the global ones it read before. */
  lemma UpdateSeedsNewDesktop(s: StoreState, config: LayoutConfig, index: int, other: int, spaceID: Option<nat>)
    requires ClampIndex(other) != ClampIndex(index)
    requires spaceID.Some? && !HasEntry(s.desktopLayouts, spaceID)
    ensures LayoutConfigAt(UpdateLayoutConfig(s, config, index, ThisDesktop, spaceID), other, ThisDesktop, spaceID)
         == DefaultConfig(ThisDesktop)
  {
    var r := UpdateLayoutConfig(s, config, index, ThisDesktop, spaceID);
    NormalizedLayoutsFixedPoint(r.desktopLayouts[Decimal(spaceID.value)], ThisDesktop);
  }

  /** Four writes to the four global presets are each read back. */
  lemma PersistsEachPreset(s: StoreState, c0: LayoutConfig, c1: LayoutConfig, c2: LayoutConfig, c3: LayoutConfig)
    ensures var r := UpdateLayoutConfig(UpdateLayoutConfig(UpdateLayoutConfig(UpdateLayoutConfig(
                       s, c0, 0, AllDesktops, None), c1, 1, AllDesktops, None), c2, 2, AllDesktops, None),
                       c3, 3, AllDesktops, None);
      LayoutConfigAt(r, 0, AllDesktops, None).weights == NormalizedToGrid(c0.weights)
      && LayoutConfigAt(r, 1, AllDesktops, None).weights == NormalizedToGrid(c1.weights)
      && LayoutConfigAt(r, 2, AllDesktops, None).weights == NormalizedToGrid(c2.weights)
      && LayoutConfigAt(r, 3, AllDesktops, None).weights == NormalizedToGrid(c3.weights)
  {
    var r0 := UpdateLayoutConfig(s, c0, 0, AllDesktops, None);
    var r1 := UpdateLayoutConfig(r0, c1, 1, AllDesktops, None);
    var r2 := UpdateLayoutConfig(r1, c2, 2, AllDesktops, None);
    var r3 := UpdateLayoutConfig(r2, c3, 3, AllDesktops, None);
    UpdateThenRead(s, c0, 0, AllDesktops, None);
    UpdateThenRead(r0, c1, 1, AllDesktops, None);
    UpdateThenRead(r1, c2, 2, AllDesktops, None);
    UpdateThenRead(r2, c3, 3, AllDesktops, None);
    UpdateKeepsOtherPresets(r0, c1, 1, 0, AllDesktops, None);
    UpdateKeepsOtherPresets(r1, c2, 2, 0, AllDesktops, None);
    UpdateKeepsOtherPresets(r1, c2, 2, 1, AllDesktops, None);
    UpdateKeepsOtherPresets(r2, c3, 3, 0, AllDesktops, None);
    UpdateKeepsOtherPresets(r2, c3, 3, 1, AllDesktops, None);
    UpdateKeepsOtherPresets(r2, c3, 3, 2, AllDesktops, None);
  }

  // ---------------------------------------------------------------------
  // Persistence

  /** The coder is faithful on `s`: what it encodes decodes back to `s`. */
  predicate RoundTrips(encode: StoreState -> Option<Bytes>, decode: Bytes -> Option<StoreState>, s: StoreState) {
    encode(s).Some? && decode(encode(s).value) == Some(s)
  }

  /** `load`: the decoded stored state, normalised; the default state when
      nothing is stored or the bytes do not decode. */
  function Load(stored: Option<Bytes>, decode: Bytes -> Option<StoreState>): (r: StoreState)
    ensures WellFormedState(r)
    ensures stored.None? ==> r == DefaultState()
    ensures stored.Some? && decode(stored.value).None? ==> r == DefaultState()
  {
    match stored
    case None => DefaultState()
    case Some(data) =>
      match decode(data)
      case Some(decoded) => NormalizeState(decoded)
      case None => DefaultState()
  }

  /** `save`: the new stored bytes, the normalised state encoded; the store
      keeps its old contents when encoding fails. */
  function Save(s: StoreState, encode: StoreState -> Option<Bytes>, stored: Option<Bytes>): (r: Option<Bytes>)
    ensures encode(NormalizeState(s)).None? ==> r == stored
    ensures encode(NormalizeState(s)).Some? ==> r == encode(NormalizeState(s))
  {
    match encode(NormalizeState(s))
    case Some(data) => Some(data)
    case None => stored
  }

  /** Loading what was saved gives the saved state, normalised. */
  lemma LoadAfterSave(s: StoreState, encode: StoreState -> Option<Bytes>, decode: Bytes -> Option<StoreState>, stored: Option<Bytes>)
    requires RoundTrips(encode, decode, NormalizeState(s))
    ensures Load(Save(s, encode, stored), decode) == NormalizeState(s)
  {
    NormalizeStateIdempotent(s);
  }

  /** Saving and loading a loaded state changes nothing. */
  lemma SaveLoadedStable(stored: Option<Bytes>, encode: StoreState -> Option<Bytes>, decode: Bytes -> Option<StoreState>)
    requires RoundTrips(encode, decode, Load(stored, decode))
    ensures Load(Save(Load(stored, decode), encode, stored), decode) == Load(stored, decode)
  {
    NormalizeStateFixedPoint(Load(stored, decode));
    LoadAfterSave(Load(stored, decode), encode, decode, stored);
  }

  /** A preset written, made active, saved and loaded again is read back
      normalised and is the active one. */
  lemma UpdateSaveLoad(s: StoreState, config: LayoutConfig, index: int,
                       encode: StoreState -> Option<Bytes>, decode: Bytes -> Option<StoreState>, stored: Option<Bytes>)
    requires 0 <= index < PresetCount
    requires var t := SetActiveLayoutIndex(UpdateLayoutConfig(s, config, index, AllDesktops, None), index, AllDesktops, None);
      RoundTrips(encode, decode, NormalizeState(t))
    ensures var t := SetActiveLayoutIndex(UpdateLayoutConfig(s, config, index, AllDesktops, None), index, AllDesktops, None);
      var reloaded := Load(Save(t, encode, stored), decode);
      LayoutConfigAt(reloaded, index, AllDesktops, None).weights == NormalizedToGrid(config.weights)
      && ActiveLayoutIndex(reloaded, AllDesktops, None) == index
  {
    var u := UpdateLayoutConfig(s, config, index, AllDesktops, None);
    var t := SetActiveLayoutIndex(u, index, AllDesktops, None);
    LoadAfterSave(t, encode, decode, stored);
    UpdateThenRead(s, config, index, AllDesktops, None);
    NormalizedLayoutsFixedPoint(u.globalLayouts, AllDesktops);
  }

  /** Missing or undecodable bytes read as the default preset everywhere. */
  lemma LoadFallsBackToDefaults(stored: Option<Bytes>, decode: Bytes -> Option<StoreState>, index: int)
    requires stored.None? || decode(stored.value).None?
    ensures LayoutConfigAt(Load(stored, decode), index, AllDesktops, None) == DefaultConfig(AllDesktops)
  {
    LayoutConfigStored(DefaultState(), index, AllDesktops, None);
  }

  // ---------------------------------------------------------------------
  // Per-screen entry points

  /** The scope used for a screen: the desktop's own when it has a preset
      list, the global one otherwise. */
  function DetectScope(s: StoreState, spaceID: Option<nat>): (scope: LayoutScope)
    ensures scope.ThisDesktop? <==> HasEntry(s.desktopLayouts, spaceID)
  {
    match SpaceKey(spaceID)
    case Some(key) => if key in s.desktopLayouts then ThisDesktop else AllDesktops
    case None => AllDesktops
  }

  /** The active preset of the detected scope in a state. */
  function ActiveConfig(s: StoreState, spaceID: Option<nat>): (c: LayoutConfig)
    ensures c.scope == DetectScope(s, spaceID) && OnGrid(c.weights)
  {
    var scope := DetectScope(s, spaceID);
    LayoutConfigAt(s, ActiveLayoutIndex(s, scope, spaceID), scope, spaceID)
  }

  /** `currentLayoutPreset(for:)`: the active preset of the screen's
      desktop, as stored, turned into a `LayoutPreset`. The current space of
      the screen is a parameter. */
  function CurrentLayoutPreset(stored: Option<Bytes>, spaceID: Option<nat>, decode: Bytes -> Option<StoreState>): (p: LayoutPreset)
    ensures p.columnWeights == ActiveConfig(Load(stored, decode), spaceID).weights.columns
    ensures p.rowWeights == ActiveConfig(Load(stored, decode), spaceID).weights.rows
  {
    var c := ActiveConfig(Load(stored, decode), spaceID);
    AsLayoutPresetMatchesNormalized(c.weights);
    OnGridFixed(c.weights);
    AsLayoutPreset(c.weights, GridCells.MaxColumns, GridCells.MaxRows)
  }

  /** With nothing stored the current preset is the default one. */
  lemma CurrentPresetWhenEmpty(spaceID: Option<nat>, decode: Bytes -> Option<StoreState>)
    ensures CurrentLayoutPreset(None, spaceID, decode) == DefaultPreset()
  {
    LayoutConfigStored(DefaultState(), 0, AllDesktops, spaceID);
  }

  /** `setActiveLayoutIndex(_:for:)`: load, record the index in the
      detected scope, save. Returns the new stored bytes. */
  function SetActiveLayoutIndexForScreen(stored: Option<Bytes>, index: int, spaceID: Option<nat>,
                                         encode: StoreState -> Option<Bytes>, decode: Bytes -> Option<StoreState>): (r: Option<Bytes>)
    ensures var s := Load(stored, decode);
      var t := SetActiveLayoutIndex(s, index, DetectScope(s, spaceID), spaceID);
      RoundTrips(encode, decode, t) ==> Load(r, decode) == t
  {
    var s := Load(stored, decode);
    var t := SetActiveLayoutIndex(s, index, DetectScope(s, spaceID), spaceID);
    NormalizeStateFixedPoint(t);
    Save(t, encode, stored)
  }

  /** After a screen's preset index is set and saved, the current preset of
      that screen is the one at the clamped index. */
  lemma SetActiveThenCurrent(stored: Option<Bytes>, index: int, spaceID: Option<nat>,
                             encode: StoreState -> Option<Bytes>, decode: Bytes -> Option<StoreState>)
    requires var s := Load(stored, decode);
      RoundTrips(encode, decode, SetActiveLayoutIndex(s, index, DetectScope(s, spaceID), spaceID))
    ensures var s := Load(stored, decode);
      var scope := DetectScope(s, spaceID);
      var c := LayoutConfigAt(s, ClampIndex(index), scope, spaceID);
      CurrentLayoutPreset(SetActiveLayoutIndexForScreen(stored, index, spaceID, encode, decode), spaceID, decode)
        == LayoutPreset(c.weights.columns, c.weights.rows)
  {
    var s := Load(stored, decode);
    var scope := DetectScope(s, spaceID);
    var t := SetActiveLayoutIndex(s, index, scope, spaceID);
    assert DetectScope(t, spaceID) == scope;
    if scope.ThisDesktop? {
      SetThenActive(s, index, scope, spaceID);
    }
  }
}
