/** Number keys that pick a desktop
    (Sources/WManager/DesktopHotkeyMapping.swift): keys 1 to 9 name desktops
    1 to 9, of which only the first `desktopCount` are reachable. */
module DesktopHotkeyMapping {
  import opened Wrappers
  import Keys

  const NumberKeys: seq<Keys.KeyCode> :=
    [Keys.One, Keys.Two, Keys.Three, Keys.Four, Keys.Five,
     Keys.Six, Keys.Seven, Keys.Eight, Keys.Nine]

  const MaxDesktops: nat := 9

  /** `clampedDesktopCount(_:)`: the count forced into `[1, 9]`. */
  function ClampedDesktopCount(count: int): (r: nat)
    ensures 1 <= r <= MaxDesktops
    ensures 1 <= count <= MaxDesktops ==> r == count
    ensures count < 1 ==> r == 1
    ensures count > MaxDesktops ==> r == MaxDesktops
  {
    if count < 1 then 1 else if count > MaxDesktops then MaxDesktops else count
  }

  /** The private `desktopIndex(for:)`: the 1-based desktop number of a
      number key. */
  function DesktopNumber(k: Keys.KeyCode): (r: Option<nat>)
    ensures r.Some? ==> 1 <= r.value <= |NumberKeys| && NumberKeys[r.value - 1] == k
    ensures r.None? <==> k !in NumberKeys
  {
    match IndexOf(NumberKeys, k)
    case None => None
    case Some(i) => Some(i + 1)
  }

  /** `desktopIndex(for:desktopCount:)`: the desktop number of `k` when it
      is within the clamped count. */
  function DesktopIndex(k: Keys.KeyCode, desktopCount: int): (r: Option<nat>)
    ensures r.Some? ==> 1 <= r.value <= ClampedDesktopCount(desktopCount) && NumberKeys[r.value - 1] == k
    ensures r.None? <==> k !in NumberKeys || DesktopNumber(k).value > ClampedDesktopCount(desktopCount)
  {
    var allowed := ClampedDesktopCount(desktopCount);
    match DesktopNumber(k)
    case Some(i) => if i <= allowed then Some(i) else None
    case None => None
  }

  /** The key at position `i` of the table names desktop `i + 1`. */
  lemma DesktopNumberOneBased(i: nat)
    requires i < |NumberKeys|
    ensures DesktopNumber(NumberKeys[i]) == Some(i + 1)
  {
    assert Keys.Distinct(NumberKeys);
    IndexOfDistinct(NumberKeys, i);
  }

  /** Within the allowed count a number key names its desktop; beyond it,
      nothing. */
  lemma DesktopIndexWithinCount(i: nat, desktopCount: int)
    requires i < |NumberKeys|
    ensures i + 1 <= ClampedDesktopCount(desktopCount) ==> DesktopIndex(NumberKeys[i], desktopCount) == Some(i + 1)
    ensures i + 1 > ClampedDesktopCount(desktopCount) ==> DesktopIndex(NumberKeys[i], desktopCount).None?
  {
    DesktopNumberOneBased(i);
  }

  /** The examples of the desktop switcher: with nine desktops key 9 names
      desktop 9; with three, key 1 names desktop 1 and key 4 nothing. */
  lemma DesktopIndexExamples(i: nat)
    requires i < 9
    ensures DesktopIndex(NumberKeys[i], 9) == Some(i + 1)
    ensures i < 3 ==> DesktopIndex(NumberKeys[i], 3) == Some(i + 1)
    ensures i >= 3 ==> DesktopIndex(NumberKeys[i], 3).None?
  {
    DesktopIndexWithinCount(i, 9);
    DesktopIndexWithinCount(i, 3);
  }

  /** The count is clamped from 0 up to 1 and from 12 down to 9, and keys
      other than the number keys, T for instance, name no desktop. */
  lemma DesktopCountExamples(k: Keys.KeyCode, count: int)
    requires k !in NumberKeys
    ensures ClampedDesktopCount(0) == 1 && ClampedDesktopCount(12) == 9
    ensures DesktopIndex(k, count).None?
  {
  }
}
