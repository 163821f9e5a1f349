/** Compile-time configuration of the tiler (Sources/WManager/Settings.swift). */
module Settings {
  import opened Wrappers
  import Keys

  /** Command + Option, matched exactly. */
  const HotkeyModifiers: set<Keys.EventFlag> := {Keys.MaskCommand, Keys.MaskAlternate}
  const AllowAdditionalModifiers: bool := false

  /** No auto-hide timer is scheduled for the overlay. */
  const OverlayAutoHideSeconds: Option<real> := None
  /** The overlay commits after two distinct selections. */
  const OverlaySelectionMaxCount: Option<int> := Some(2)

  const OuterPadding: real := 8.0
  const InnerGap: real := 8.0

  /** Number of preset slots per scope. The source refers to this setting
      without declaring it; four slots are what its store tests address. */
  const LayoutPresetCount: int := 4
}
