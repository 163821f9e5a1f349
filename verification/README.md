# wmanager core, modelled in Dafny

wmanager is a keyboard-driven window tiler for macOS. This project models its
pure logic and proves properties of it:

- the weight model (`GridWeight`, `LayoutPreset`): integer column and row
  weights clamped to `[0, 5]` and normalised to a 4 x 3 grid;
- the grid geometry of `LayoutEngine.frames` and `activeCells`: a padded
  screen split into weighted columns and rows with gaps between them, over
  the static twelve-cell `GridCell` catalogue;
- the scoped preset store `LayoutStore`: four presets shared by all
  desktops, optional per-desktop preset lists, and an active index for each
  scope, all clamped and normalised, with load and save through a codec;
- the overlay's selection (`OverlaySelectionState`), a set with an optional
  commit count;
- the key tables `OverlayKeyAction`, `LayoutHotkeyMapping`,
  `DesktopHotkeyMapping` and `Slot`, with the six-slot frames of
  `Slot.frames(in:)` and their union as `applySlots` computes it;
- the rectangle formulas of `WindowCoordinateConverter` (Cocoa to
  Accessibility y-flip) and `TileFrames` (maximise, left half, right half);
- the hotkey dispatcher `HotkeyManager.handleEvent`, `handleOverlayKey`,
  `clearOverlaySelection` and `matchesHotkeyModifiers`. This is a pure
  transition: the overlay's visibility, the selection, the event kind,
  modifier flags and key code go in; the new state, the calls made on the
  window manager and overlay, and whether the event is swallowed come out.

`CGFloat` is Dafny's exact `real`, and `CGRect` is a datatype of four reals.
Each source file has one Dafny module. `weights.dfy` holds both `GridWeight`
and `LayoutPreset`, because each needs the other. Keys are the declared
key-code constants. The proofs use only the fact that these codes are
pairwise distinct.

The code as shown is incomplete; where it is silent or inconsistent, the
model follows what it does:

- `handleEvent` has no branch that selects a layout preset by number key.
  `LayoutHotkeyMapping` is modelled on its own.
- The dispatcher's overlay branch dismisses on Escape only. Return dismisses
  only in `OverlayKeyAction.action(for:)`, which the dispatcher does not use.
- The preset count `Settings.layoutPresetCount` is read by the store, but
  `Settings.swift` does not declare it. The model takes 4, the value the
  store's tests write up to (index 3).
- `Keys.swift` does not declare the Return key or the number keys. The model
  gives them the macOS virtual key codes. The same holds for the R, F, Z, X,
  C and V keys of the cell catalogue.

## Model

| member | source | states |
|---|---|---|
| Weights.ClampWeight | Sources/WManager/GridWeight.swift:77-79 | the result lies in `[0, 5]`, is the input when that is in range, and is the nearer bound otherwise |
| Weights.MakeGridWeight | Sources/WManager/GridWeight.swift:10-13 | every weight of the new grid weight is the clamped input weight; lengths are kept; already valid inputs are stored unchanged |
| Weights.DefaultGridWeight | Sources/WManager/GridWeight.swift:15-17 | the default is three columns and two rows, all of weight 1 |
| Weights.IncrementColumn | Sources/WManager/GridWeight.swift:19-22 | one column weight goes up by one, saturating at 5; every other column, every row and the lengths are kept; an index out of range changes nothing |
| Weights.SetColumn | Sources/WManager/GridWeight.swift:24-27 | the column at the index gets the value clamped into `[0, 5]`; nothing else changes; an index out of range changes nothing |
| Weights.DecrementColumn | Sources/WManager/GridWeight.swift:29-32 | one column weight goes down by one, never below 0; nothing else changes; an index out of range changes nothing |
| Weights.IncrementRow | Sources/WManager/GridWeight.swift:34-37 | the row counterpart of `IncrementColumn` |
| Weights.SetRow | Sources/WManager/GridWeight.swift:39-42 | the row counterpart of `SetColumn` |
| Weights.DecrementRow | Sources/WManager/GridWeight.swift:44-47 | the row counterpart of `DecrementColumn` |
| Weights.IncrementDecrementInverse | Sources/WManager/GridWeight.swift:19-47 | away from the bound it would hit, an increment undoes a decrement at the same index, and the other way round, for columns and for rows |
| Weights.ActiveColumnCount | Sources/WManager/GridWeight.swift:49-51 | the count is the number of columns with a positive weight, and is zero exactly when no column weight is positive |
| Weights.ActiveRowCount | Sources/WManager/GridWeight.swift:53-55 | the same for rows |
| Weights.Proportions | Sources/WManager/GridWeight.swift:92-97 | with no positive active total the proportions are empty; otherwise there is one per active weight, equal to that weight over the active total |
| Weights.ColumnProportions | Sources/WManager/GridWeight.swift:57-59 | one proportion per active column, each in `(0, 1]`, adding up to 1 when there is any |
| Weights.RowProportions | Sources/WManager/GridWeight.swift:61-63 | one proportion per active row, each in `(0, 1]`, adding up to 1 when there is any |
| Weights.ActiveIndices | Sources/WManager/GridWeight.swift:49-55 | the increasing list of exactly the positions whose weight is positive |
| Weights.ActiveCountIsActiveIndices | Sources/WManager/GridWeight.swift:49-55 | the active count is the number of positive entries; it is zero exactly when no entry is positive |
| Weights.ActiveCountExample | Tests/WManagerTests/GridWeightTests.swift:39-43 | columns `[1,0,1]` and rows `[1,0]` have two active columns and one active row |
| Weights.ProportionsSpec | Sources/WManager/GridWeight.swift:92-97 | proportions are empty exactly when no weight is positive; otherwise there is one per active entry, equal to its weight over the active total, each in `(0, 1]`, summing to 1 |
| Weights.ProportionsAllPositive | Sources/WManager/GridWeight.swift:92-97 | when every weight is positive the proportions are the weights divided by their sum |
| Weights.SharesSum | Sources/WManager/GridWeight.swift:96 | the shares of a vector sum to its total over the divisor |
| Weights.ColumnProportionsExample | Tests/WManagerTests/GridWeightTests.swift:45-48 | columns `[1,2,1]` give proportions `[0.25, 0.5, 0.25]` |
| Weights.RowProportionsExample | Tests/WManagerTests/GridWeightTests.swift:45-49 | rows `[3,1]` give proportions `[0.75, 0.25]` |
| Weights.NormalizeWeights | Sources/WManager/GridWeight.swift:81-90 | the result has exactly the requested length, keeps the clamped prefix of the input, and pads with 0 |
| Weights.NormalizeIdempotent | Sources/WManager/GridWeight.swift:81-90 | normalising a weight vector twice is normalising it once |
| Weights.NormalizeFixedPoint | Sources/WManager/LayoutPreset.swift:16-20 | a vector of the right length with every weight in range is its own normalisation |
| Weights.NormalizedToGrid | Sources/WManager/GridWeight.swift:71-75 | `normalized()` with its default counts gives 4 columns and 3 rows, every weight in range |
| Weights.AsLayoutPreset | Sources/WManager/GridWeight.swift:65-69 | the preset has 4 column and 3 row weights, all in range |
| Weights.Normalized | Sources/WManager/GridWeight.swift:71-75 | `normalized` normalises the columns and the rows separately to the requested counts |
| Weights.NormalizedIdempotent | Sources/WManager/GridWeight.swift:71-75 | normalising a grid weight twice is normalising it once |
| Weights.NormalizedFixedPoint | Sources/WManager/GridWeight.swift:71-75 | a grid weight already of the requested shape and range is unchanged |
| Weights.MakePreset | Sources/WManager/LayoutPreset.swift:7-10 | a preset always has 4 column and 3 row weights in range: the clamped input, cut or padded with zeros |
| Weights.MakePresetIdempotent | Sources/WManager/LayoutPreset.swift:16-25 | building a preset from a preset's own weights gives the same preset |
| Weights.DefaultPreset | Sources/WManager/LayoutPreset.swift:12-14 | the default preset is columns `[1,1,1,0]` and rows `[1,1,0]` |
| Weights.AsLayoutPresetMatchesNormalized | Sources/WManager/GridWeight.swift:65-75 | `asLayoutPreset` holds the same column and row vectors as `normalized` |
| Weights.DefaultGridWeightIsDefaultPreset | Sources/WManager/LayoutStore.swift:22-25 | the normalised default grid weight is the default preset |
| GridCells.CatalogueShape | Sources/WManager/GridCell.swift:9-25 | the catalogue has twelve cells, the one at position `i` sitting at row `i / 4`, column `i % 4` |
| GridCells.CatalogueKeysDistinct | Sources/WManager/GridCell.swift:12-25 | no two catalogue cells share a key |
| GridCells.CellForKey | Sources/WManager/GridCell.swift:27-29 | a found cell is in the catalogue and carries the key; nothing is found exactly when no cell carries it |
| GridCells.CellForOwnKey | Sources/WManager/GridCell.swift:12-29 | looking a catalogue cell up by its own key finds that cell |
| GridCells.CellAt | Sources/WManager/GridCell.swift:31-33 | a cell is found exactly when the position is inside the 3 x 4 grid, and it has that row and column |
| GridCells.CellAtOwnPosition | Sources/WManager/GridCell.swift:31-33 | looking a catalogue cell up by its own position finds that cell |
| LayoutEngine.UsableLength | Sources/WManager/LayoutEngine.swift:14-18 | the usable length is never negative, and with the gaps added back it is the whole length when that is long enough |
| LayoutEngine.ColumnSpans | Sources/WManager/LayoutEngine.swift:26-35 | the first column starts at the left edge of the content; each next one starts one gap after the previous one ends |
| LayoutEngine.RowSpans | Sources/WManager/LayoutEngine.swift:37-47 | the first row's top edge is the top of the content; each next row's top is one gap below the previous row's bottom |
| LayoutEngine.ColumnSizesSum | Sources/WManager/LayoutEngine.swift:28-33 | the column widths add up to the usable length times the weight total over the divisor |
| LayoutEngine.ColumnSpansFill | Sources/WManager/LayoutEngine.swift:14-35 | the active columns' widths add up to exactly the usable width |
| LayoutEngine.ColumnSpansReachEdge | Sources/WManager/LayoutEngine.swift:14-35 | on a wide enough screen the last active column ends at the right edge of the content |
| LayoutEngine.RowSpansFill | Sources/WManager/LayoutEngine.swift:14-47 | the active rows' heights add up to exactly the usable height |
| LayoutEngine.Frames | Sources/WManager/LayoutEngine.swift:4-57 | only catalogue cells in an active column and an active row get a frame |
| LayoutEngine.ActiveCells | Sources/WManager/LayoutEngine.swift:59-64 | a cell is active exactly when it is in the catalogue and both its column weight and its row weight are positive |
| LayoutEngine.FramesEmptyWhenInactive | Sources/WManager/LayoutEngine.swift:8-12 | with no positive column weight or no positive row weight there are no frames |
| LayoutEngine.FramesKeys | Sources/WManager/LayoutEngine.swift:4-57 | the cells that get a frame are exactly the active cells |
| LayoutEngine.FramesColumnWidth | Sources/WManager/LayoutEngine.swift:28-33 | a framed cell is as wide as its column weight's share of the usable width, and never negative |
| LayoutEngine.FramesRowHeight | Sources/WManager/LayoutEngine.swift:39-45 | a framed cell is as high as its row weight's share of the usable height, and never negative |
| LayoutEngine.FramesFirstColumn | Sources/WManager/LayoutEngine.swift:26-30 | cells of the first active column start at the left edge of the content |
| LayoutEngine.FramesColumnPlacement | Sources/WManager/LayoutEngine.swift:26-35 | a cell of the next active column starts one gap after a cell of the previous one ends |
| LayoutEngine.FramesFirstRow | Sources/WManager/LayoutEngine.swift:37-42 | cells of the first active row have their top edge at the top of the content |
| LayoutEngine.FramesRowPlacement | Sources/WManager/LayoutEngine.swift:37-47 | a cell of the next active row ends one gap below where a cell of the previous row starts |
| LayoutEngine.FramesShareLines | Sources/WManager/LayoutEngine.swift:49-54 | cells in one column share x and width; cells in one row share y and height |
| LayoutEngine.FramedWhenActive | Sources/WManager/LayoutEngine.swift:49-54 | every catalogue cell at an active column and an active row gets a frame |
| LayoutEngine.ExampleTopLeft | Tests/WManagerTests/LayoutTests.swift:18-36 | on a 1200 x 800 screen with the default preset, cell (0, 0) is at (8, 404) and is 1168/3 wide and 388 high |
| LayoutEngine.ExampleMiddleRight | Tests/WManagerTests/LayoutTests.swift:18-36 | in the same example, cell (1, 2) is at (2408/3, 8) and is 1168/3 wide and 388 high |
| OverlaySelection.Select | Sources/WManager/OverlaySelectionState.swift:6-9 | the new selection is the old one plus the element, and that is what is returned |
| OverlaySelection.SelectWithLimit | Sources/WManager/OverlaySelectionState.swift:11-20 | the element is added, and the limit is reported exactly when a positive count is given and the selection holds at least that many |
| OverlaySelection.Clear | Sources/WManager/OverlaySelectionState.swift:22-24 | nothing is selected afterwards |
| OverlaySelection.SelectOverloadsAgree | Sources/WManager/OverlaySelectionState.swift:6-20 | both overloads of `select` leave the same selection |
| OverlaySelection.NoLimitWithoutPositiveMax | Sources/WManager/OverlaySelectionState.swift:13-18 | without a positive commit count the limit is never reported |
| OverlaySelection.ReselectUnchanged | Sources/WManager/OverlaySelectionState.swift:6-9 | selecting an element already selected changes nothing |
| OverlaySelection.SelectGrowsByOne | Sources/WManager/OverlaySelectionState.swift:6-9 | a selection grows by one element, or by none when the element was already there |
| OverlaySelection.CommitAfterTwo | Tests/WManagerTests/OverlaySelectionStateTests.swift:22-31 | with a commit count of two, the first element does not commit and a second, different one does |
| OverlaySelection.NoSingleRemoval | Sources/WManager/OverlaySelectionState.swift:6-24 | every operation either keeps all that was selected or empties the selection |
| OverlayKeyAction.ActionFor | Sources/WManager/OverlayKeyAction.swift:8-18 | Escape and Return dismiss, before any lookup; a catalogue key selects its own cell; every other key passes through; exactly one of the three happens |
| OverlayKeyAction.CatalogueKeysSelect | Sources/WManager/OverlayKeyAction.swift:9-15 | every catalogue key selects the cell it belongs to |
| OverlayKeyAction.QSelectsTopLeft | Tests/WManagerTests/OverlayKeyActionTests.swift:10-13 | Q selects the cell at row 0, column 0 |
| OverlayKeyAction.ArrowsPassThrough | Tests/WManagerTests/OverlayKeyActionTests.swift:15-17 | the arrow keys pass through |
| LayoutHotkeyMapping.ClampLayoutCount | Sources/WManager/LayoutHotkeyMapping.swift:19-21 | the count is forced into `[1, 4]`, and is unchanged inside that range |
| LayoutHotkeyMapping.LayoutIndex | Sources/WManager/LayoutHotkeyMapping.swift:11-17 | a found index is below the clamped count and belongs to that number key; nothing is found exactly when the key is not among the first clamped-count number keys |
| LayoutHotkeyMapping.NumberKeySelects | Sources/WManager/LayoutHotkeyMapping.swift:4-17 | number key `i + 1` selects preset `i` whenever `i` is below the clamped count |
| LayoutHotkeyMapping.LayoutIndexMonotone | Sources/WManager/LayoutHotkeyMapping.swift:11-17 | raising the count never changes an index that was already found |
| LayoutHotkeyMapping.NonNumberKeyIgnored | Sources/WManager/LayoutHotkeyMapping.swift:11-17 | keys other than the number keys select no preset |
| LayoutHotkeyMapping.LayoutIndexExamples | Tests/WManagerTests/LayoutHotkeyMappingTests.swift:21-33 | with two presets key 1 selects preset 0 and key 3 nothing; the count is clamped from 0 to 1 and from 9 to 4; T selects nothing |
| DesktopHotkeyMapping.ClampedDesktopCount | Sources/WManager/DesktopHotkeyMapping.swift:16-18 | the count is forced into `[1, 9]`, and is unchanged inside that range |
| DesktopHotkeyMapping.DesktopNumber | Sources/WManager/DesktopHotkeyMapping.swift:28-33 | a number key gives its 1-based position in the key table; any other key gives nothing |
| DesktopHotkeyMapping.DesktopIndex | Sources/WManager/DesktopHotkeyMapping.swift:20-26 | a found desktop lies in `[1, clamped count]` and belongs to the key; nothing is found exactly when the key is no number key or its desktop is above the clamped count |
| DesktopHotkeyMapping.DesktopNumberOneBased | Sources/WManager/DesktopHotkeyMapping.swift:4-14 | the key at position `i` of the table names desktop `i + 1` |
| DesktopHotkeyMapping.DesktopIndexWithinCount | Sources/WManager/DesktopHotkeyMapping.swift:20-26 | a number key names its desktop when that is within the clamped count, and nothing when it is above |
| DesktopHotkeyMapping.DesktopIndexExamples | Tests/WManagerTests/DesktopHotkeyMappingTests.swift:5-29 | with nine desktops key `i + 1` names desktop `i + 1`; with three, only keys 1 to 3 name a desktop |
| CoordinateConverter.AxFrame | Sources/WManager/WindowCoordinateConverter.swift:4-7 | x, width and height are kept, and the new y is the distance from the frame's top edge to the screen's top edge |
| CoordinateConverter.AxFrameInvolution | Sources/WManager/WindowCoordinateConverter.swift:4-7 | converting twice on the same screen gives back the original frame |
| CoordinateConverter.AxFrameEdges | Sources/WManager/WindowCoordinateConverter.swift:4-7 | a frame flush with the screen's top gets y = 0 |
| CoordinateConverter.AxFrameReversesOrder | Tests/WManagerTests/WindowCoordinateConverterTests.swift:6-25 | a frame whose top is higher on screen ends up with the smaller y |
| TileFrames.Maximized | Sources/WManager/WindowManager.swift:119-121 | each edge of the maximised frame is the screen's edge moved in by the outer padding |
| TileFrames.HalfLeft | Sources/WManager/WindowManager.swift:123-132 | the left half starts at the content's left edge and spans the content's height |
| TileFrames.HalfRight | Sources/WManager/WindowManager.swift:134-143 | the right half ends at the content's right edge and spans the content's height |
| TileFrames.HalvesSplitMaximized | Sources/WManager/WindowManager.swift:123-143 | the two halves are equally wide; the right one starts one gap after the left one ends; halves and gap together span the maximised frame |
| TileFrames.HalvesInsideMaximized | Sources/WManager/WindowManager.swift:119-143 | on a screen wide enough for the gap, both halves lie within the maximised frame |
| TileFrames.TileFramesExample | Tests/WManagerTests/LayoutTests.swift:6-16 | a 1200 x 800 screen gives (8, 8, 1184, 784), (8, 8, 588, 784) and (604, 8, 588, 784) |
| Slots.AllSlotsComplete | Sources/WManager/Slot.swift:3-9 | the list of cases holds every slot |
| Slots.KeyCodeOf | Sources/WManager/Slot.swift:11-20 | every slot's key is a key of the cell catalogue, and none of T, Escape or the arrow keys that the dispatcher handles itself |
| Slots.Label | Sources/WManager/Slot.swift:22-31 | every label is a single letter |
| Slots.KeysAndLabelsDistinct | Sources/WManager/Slot.swift:11-31 | different slots have different keys and different labels |
| Slots.FromKeyCode | Sources/WManager/Slot.swift:33-35 | a found slot has the key; nothing is found exactly when no slot has it |
| Slots.FromOwnKeyCode | Sources/WManager/Slot.swift:11-35 | looking a slot up by its own key finds it |
| Slots.SlotsAgreeWithCatalogue | Sources/WManager/GridCell.swift:12-25 | each slot's key is a catalogue key whose cell has the slot's label, row and column |
| Slots.SlotFrames | Sources/WManager/Slot.swift:37-61 | every slot has a frame |
| Slots.SlotColumnsFillWidth | Sources/WManager/Slot.swift:38-49 | the side columns are a quarter and the centre column half of the width less two gaps; they meet one gap apart and fill the content from left edge to right edge |
| Slots.SlotRowsFillHeight | Sources/WManager/Slot.swift:40-51 | both rows are half of the height less one gap; the bottom row sits on the content's bottom edge and the top row reaches its top edge |
| Slots.SlotsFrame | Sources/WManager/WindowManager.swift:25-39 | an empty selection leaves the window alone, any other selection gives a frame |
| Slots.SlotsFrameEncloses | Sources/WManager/WindowManager.swift:29-34 | the union encloses the frame of every selected slot |
| Slots.SlotsFrameTight | Sources/WManager/WindowManager.swift:29-34 | each edge of the union is the edge of some selected slot, so nothing smaller encloses them |
| Slots.SingleSlotFrame | Sources/WManager/WindowManager.swift:29-34 | the union of one slot is that slot's frame |
| Slots.LeftColumnFrame | Sources/WManager/WindowManager.swift:25-39 | selecting the two left slots covers the left column from the content's bottom to its top |
| LayoutStore.DefaultConfig | Sources/WManager/LayoutStore.swift:22-25 | the default configuration has the requested scope and the default preset's weights |
| LayoutStore.ClampIndex | Sources/WManager/LayoutStore.swift:168-171 | the index is forced into `[0, 3]`, and is unchanged inside that range |
| LayoutStore.NormalizedLayouts | Sources/WManager/LayoutStore.swift:173-182 | the list has exactly four presets, all of the given scope and on the 4 x 3 grid; stored presets are normalised in place and missing ones are defaults |
| LayoutStore.NormalizedLayoutsIdempotent | Sources/WManager/LayoutStore.swift:173-182 | normalising a preset list twice is normalising it once |
| LayoutStore.NormalizeState | Sources/WManager/LayoutStore.swift:184-191 | the result is well formed, keeps the same desktops, normalises every list, and clamps every active index into `[0, 3]` |
| LayoutStore.NormalizeStateIdempotent | Sources/WManager/LayoutStore.swift:184-191 | normalising a state twice is normalising it once |
| LayoutStore.DefaultState | Sources/WManager/LayoutStore.swift:52-60 | four default presets for all desktops, preset 0 active, nothing per desktop |
| LayoutStore.DefaultStateNormalized | Sources/WManager/LayoutStore.swift:52-60 | the default state is its own normalisation |
| LayoutStore.SpaceKey | Sources/WManager/LayoutStore.swift:193-196 | there is a key exactly when there is a space, and it is the space's decimal numeral |
| LayoutStore.Decimal | Sources/WManager/LayoutStore.swift:193-196 | the numeral is never empty, has one digit exactly for numbers below ten, and otherwise no leading zero |
| LayoutStore.SpaceKeyInjective | Sources/WManager/LayoutStore.swift:193-196 | two space identifiers, present or absent, give the same key only when they are equal |
| LayoutStore.ActiveLayoutIndex | Sources/WManager/LayoutStore.swift:62-73 | the result is a valid index: the desktop's own clamped index when the scope is per-desktop and it has one, otherwise the clamped global index |
| LayoutStore.SetActiveLayoutIndex | Sources/WManager/LayoutStore.swift:75-89 | only the clamped index of the addressed scope changes; a per-desktop request without a space changes nothing |
| LayoutStore.SetThenActive | Sources/WManager/LayoutStore.swift:62-89 | reading back the index just set gives the clamped index |
| LayoutStore.SetActiveOtherDesktop | Sources/WManager/LayoutStore.swift:75-89 | setting one desktop's index leaves what every other desktop, and the global scope, reads |
| LayoutStore.LayoutConfigAt | Sources/WManager/LayoutStore.swift:91-112 | the preset read carries the scope asked for and is on the 4 x 3 grid |
| LayoutStore.LayoutConfigFallback | Sources/WManager/LayoutStore.swift:102-108 | a desktop without its own list reads the global preset, relabelled as per-desktop |
| LayoutStore.LayoutConfigStored | Sources/WManager/LayoutStore.swift:91-112 | in a normalised state the preset read is the stored one at the clamped index |
| LayoutStore.UpdateLayoutConfig | Sources/WManager/LayoutStore.swift:114-137 | active indices never change; only the addressed list changes and it stays well formed; a per-desktop request without a space changes nothing |
| LayoutStore.UpdateThenRead | Sources/WManager/LayoutStore.swift:114-137 | reading back the preset just written gives its normalised weights under the scope written, whatever scope the written configuration carried |
| LayoutStore.UpdateKeepsOtherPresets | Sources/WManager/LayoutStore.swift:114-137 | the other presets of an existing list read as before |
| LayoutStore.UpdateSeedsNewDesktop | Sources/WManager/LayoutStore.swift:131-135 | a desktop's first write seeds its other presets with defaults |
| LayoutStore.PersistsEachPreset | Tests/WManagerTests/LayoutStoreTests.swift:47-63 | four writes to the four global presets are each read back |
| LayoutStore.Load | Sources/WManager/LayoutStore.swift:38-44 | a load is always well formed, and is the default state when nothing is stored or the bytes do not decode |
| LayoutStore.Save | Sources/WManager/LayoutStore.swift:46-50 | the store keeps its old bytes when encoding fails, and otherwise holds the encoding of the normalised state |
| LayoutStore.LoadAfterSave | Sources/WManager/LayoutStore.swift:38-50 | with a faithful codec, loading what was saved gives the saved state, normalised |
| LayoutStore.SaveLoadedStable | Sources/WManager/LayoutStore.swift:38-50 | saving a loaded state and loading it again changes nothing |
| LayoutStore.UpdateSaveLoad | Tests/WManagerTests/LayoutStoreTests.swift:23-37 | a preset written, made active, saved and reloaded reads back normalised and is the active one |
| LayoutStore.LoadFallsBackToDefaults | Tests/WManagerTests/LayoutStoreTests.swift:39-45 | missing or corrupt bytes read as the default preset |
| LayoutStore.DetectScope | Sources/WManager/LayoutStore.swift:139-152 | a screen's desktop is per-desktop exactly when it has its own preset list |
| LayoutStore.CurrentLayoutPreset | Sources/WManager/LayoutStore.swift:139-152 | the current preset carries the weights of the active preset of the detected scope, read from the loaded state |
| LayoutStore.CurrentPresetWhenEmpty | Sources/WManager/LayoutStore.swift:139-152 | with nothing stored the current preset is the default preset |
| LayoutStore.SetActiveLayoutIndexForScreen | Sources/WManager/LayoutStore.swift:154-166 | with a faithful codec, what is stored afterwards loads as the loaded state with the index set in the detected scope |
| LayoutStore.SetActiveThenCurrent | Sources/WManager/LayoutStore.swift:139-166 | after a screen's index is set and saved, the screen's current preset is the one at the clamped index |
| HotkeyManager.MatchesModifiers | Sources/WManager/HotkeyManager.swift:142-149 | the flags match exactly when the required flags are among command, option, control and shift and are all held, and, unless additional modifiers are allowed, no other of those four is held |
| HotkeyManager.MatchesHotkeyModifiers | Sources/WManager/HotkeyManager.swift:142-149 | with the configured settings, the flags match exactly when command and option are held and control and shift are not |
| HotkeyManager.IrrelevantFlagsIgnored | Sources/WManager/HotkeyManager.swift:143-144 | flags other than the four modifiers never change the answer |
| HotkeyManager.AdditionalModifiersMonotone | Sources/WManager/HotkeyManager.swift:145-146 | when additional modifiers are allowed, holding more keys still matches |
| HotkeyManager.HotkeyModifiersExamples | Sources/WManager/Settings.swift:5-6 | command-option matches, with or without caps lock and fn; adding shift or dropping option does not |
| HotkeyManager.ClearOverlaySelection | Sources/WManager/HotkeyManager.swift:135-140 | the selection is emptied, visibility is kept, and the overlay is told only when it is showing |
| HotkeyManager.HandleOverlayKey | Sources/WManager/HotkeyManager.swift:113-133 | Escape clears and hides; the event is swallowed exactly for Escape and slot keys; any other key leaves only the selection cleared |
| HotkeyManager.HandleEvent | Sources/WManager/HotkeyManager.swift:57-111 | events other than key presses change nothing and are passed on; only key presses are swallowed |
| HotkeyManager.TapDisabledReenables | Sources/WManager/HotkeyManager.swift:58-63 | a disabled tap is re-enabled and the event passed on, with nothing else changed |
| HotkeyManager.NonKeyEventsPassThrough | Sources/WManager/HotkeyManager.swift:65-67 | mouse and other events pass through untouched, so the overlay's mouse branch is never reached |
| HotkeyManager.HiddenUnhandledPassesThrough | Sources/WManager/HotkeyManager.swift:86-110 | with the overlay hidden, a key without the hotkey modifiers, or one the switch does not handle, passes through with nothing changed |
| HotkeyManager.HiddenArrowsTile | Sources/WManager/HotkeyManager.swift:92-101 | with the overlay hidden, the hotkey arrows tile left, tile right or maximise and are swallowed, with the state kept |
| HotkeyManager.HotkeyTogglesOverlay | Sources/WManager/HotkeyManager.swift:76-107 | hotkey T clears the selection and hides a showing overlay, or shows a hidden one when there is a screen; it is always swallowed |
| HotkeyManager.OverlayEscapeDismisses | Sources/WManager/HotkeyManager.swift:113-118 | on a showing overlay Escape clears, hides and is swallowed |
| HotkeyManager.OverlaySlotKeySelects | Sources/WManager/HotkeyManager.swift:120-129 | on a showing overlay a slot key adds its slot, shows and applies the selection, and at two slots hides the overlay and clears the selection |
| HotkeyManager.OverlayOtherKeyPassesThrough | Sources/WManager/HotkeyManager.swift:131-132 | on a showing overlay any other key empties the selection, keeps the overlay and passes through |
| HotkeyManager.HandleEventPreservesInvariant | Sources/WManager/HotkeyManager.swift:57-140 | every event keeps the selection empty while the overlay is hidden and below the commit count of two |
| HotkeyManager.TwoSlotsCommit | Sources/WManager/HotkeyManager.swift:102-129 | hotkey T then two different slot keys shows the overlay, shows the first slot, then applies both and hides, ending in the start-up state |

## Left out

- I/O is not modelled. That covers the Accessibility calls of `WindowManager` (finding the focused window, reading and writing its frame, finding its screen), the event tap's start and stop and its run-loop source, the overlay window and its timer, and `DesktopManager`'s private system calls. The space identifier and whether a screen is available are inputs instead.
- `UserDefaults` and the JSON coder are a parameter. `load` and `save` take an encoder and a decoder that may fail, and the round-trip lemmas assume the codec decodes what it encodes.
- Floating-point rounding is not modelled: `CGFloat` is an exact real. The layout test's tolerance of 0.01 is therefore not needed, and the worked examples are stated exactly.
- `CGRect` is not standardised. A rectangle with a negative width or height is taken as written, `insetBy` never yields the null rectangle, and `union` is taken on non-null rectangles only. `applySlots` starts its union from the null rectangle, and the model starts from "no rectangle" instead.
- `applySlots` runs over the slots of a `Set`, in an order Swift does not fix. The model unions them in the order of the slot cases. The union does not depend on the order.
- The mouse-down branch inside the visible-overlay branch of `handleEvent` is not modelled. Only key presses reach it, so it can never run.
- `HotkeyManager` passes a `Slot` to `OverlaySelectionState.select`, whose declaration takes a `GridCell`. The selection is therefore generic in its element type. `overlayController.show` is called without the layout argument its declaration asks for, and the model's `ShowOverlay` command carries only the selection.
- HotkeyManager.TapDisabledReenables: the re-enable command is issued unconditionally, whereas the source re-enables only when it holds a tap. A tap event comes from that tap, so it is always held.
- The settings `desktopMoveModifiers` and `desktopCount` are not modelled, because the core does not use them. Neither are the colours and sizes of the overlay.
- The `title` strings of `LayoutScope` are not modelled, because they are display text only.
- Views are not modelled. That covers `SettingsView`, `GridEditorView`, `WeightControlView`, `OverlayView`, `OverlayWindow`, `SettingsWindowController` and `StatusBarController`. `GridEditorView`'s own weighted split repeats the layout engine's.
