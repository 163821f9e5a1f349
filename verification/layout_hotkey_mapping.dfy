/** Number keys that pick a layout preset
    (Sources/WManager/LayoutHotkeyMapping.swift): keys 1 to 4 select
    presets 0 to 3, of which only the first `layoutCount` are reachable. */
module LayoutHotkeyMapping {
  import opened Wrappers
  import Keys

  const NumberKeys: seq<Keys.KeyCode> := [Keys.One, Keys.Two, Keys.Three, Keys.Four]

  /** `clampLayoutCount(_:)`: the count forced into `[1, 4]`. */
  function ClampLayoutCount(count: int): (r: nat)
    ensures 1 <= r <= |NumberKeys|
    ensures 1 <= count <= |NumberKeys| ==> r == count
    ensures count < 1 ==> r == 1
    ensures count > |NumberKeys| ==> r == |NumberKeys|
  {
    if count < 1 then 1 else if count > |NumberKeys| then |NumberKeys| else count
  }

  /** `layoutIndex(for:layoutCount:)`: the 0-based position of `k` among
      the first `ClampLayoutCount(layoutCount)` number keys. */
  function LayoutIndex(k: Keys.KeyCode, layoutCount: int): (r: Option<nat>)
    ensures r.Some? ==> r.value < ClampLayoutCount(layoutCount) && NumberKeys[r.value] == k
    ensures r.None? <==> k !in NumberKeys[..ClampLayoutCount(layoutCount)]
  {
    IndexOf(NumberKeys[..ClampLayoutCount(layoutCount)], k)
  }

  lemma NumberKeysDistinct()
    ensures Keys.Distinct(NumberKeys)
  {
  }

  /** Number key `i + 1` selects preset `i` whenever that preset is within
      the allowed count. */
  lemma NumberKeySelects(i: nat, layoutCount: int)
    requires i < ClampLayoutCount(layoutCount)
    ensures LayoutIndex(NumberKeys[i], layoutCount) == Some(i)
  {
    var n := ClampLayoutCount(layoutCount);
    NumberKeysDistinct();
    assert NumberKeys[..n][i] == NumberKeys[i];
    IndexOfDistinct(NumberKeys[..n], i);
  }

  /** Raising the count never changes an index that was already
      reachable. */
  lemma LayoutIndexMonotone(k: Keys.KeyCode, n: int, m: int)
    requires n <= m
    requires LayoutIndex(k, n).Some?
    ensures LayoutIndex(k, m) == LayoutIndex(k, n)
  {
    IndexOfPrefix(NumberKeys, ClampLayoutCount(n), ClampLayoutCount(m), k);
  }

  /** Keys that are not number keys select nothing. */
  lemma NonNumberKeyIgnored(k: Keys.KeyCode, layoutCount: int)
    requires k !in NumberKeys
    ensures LayoutIndex(k, layoutCount).None?
  {
    var n := ClampLayoutCount(layoutCount);
    assert forall j :: 0 <= j < n ==> NumberKeys[..n][j] == NumberKeys[j];
  }

  /** The store-facing examples: with two presets, key 1 picks preset 0
      and key 3 picks nothing; the count is clamped from 0 up to 1 and from
      9 down to 4; T is not a number key. */
  lemma LayoutIndexExamples()
    ensures LayoutIndex(Keys.One, 2) == Some(0)
    ensures LayoutIndex(Keys.Three, 2).None?
    ensures LayoutIndex(Keys.Four, 4) == Some(3)
    ensures ClampLayoutCount(0) == 1 && ClampLayoutCount(9) == 4
    ensures LayoutIndex(Keys.T, 4).None?
  {
    NumberKeySelects(0, 2);
    NumberKeySelects(3, 4);
    NonNumberKeyIgnored(Keys.T, 4);
  }
}
