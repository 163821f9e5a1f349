/** Virtual key codes and event modifier flags.

    The first group of constants carries the values declared in
    Sources/WManager/Keys.swift. The second group is used by the grid
    catalogue, the overlay key table and the number-key mappings but is not
    declared there; those constants carry the standard macOS ANSI virtual
    key codes. Nothing in this model depends on the numbers themselves, only
    on the constants being pairwise distinct (see `NamedKeysDistinct`). */
module Keys {

  /** `CGKeyCode`, an unsigned 16-bit value. */
  type KeyCode = k: int | 0 <= k < 0x1_0000

  const A: KeyCode := 0
  const S: KeyCode := 1
  const D: KeyCode := 2
  const Q: KeyCode := 12
  const W: KeyCode := 13
  const E: KeyCode := 14
  const T: KeyCode := 17
  const LeftArrow: KeyCode := 123
  const RightArrow: KeyCode := 124
  const DownArrow: KeyCode := 125
  const UpArrow: KeyCode := 126
  const Escape: KeyCode := 53

  const R: KeyCode := 15
  const F: KeyCode := 3
  const Z: KeyCode := 6
  const X: KeyCode := 7
  const C: KeyCode := 8
  const V: KeyCode := 9
  const Return: KeyCode := 36
  const One: KeyCode := 18
  const Two: KeyCode := 19
  const Three: KeyCode := 20
  const Four: KeyCode := 21
  const Five: KeyCode := 23
  const Six: KeyCode := 22
  const Seven: KeyCode := 26
  const Eight: KeyCode := 28
  const Nine: KeyCode := 25

  /** Every named key, in declaration order. */
  const Named: seq<KeyCode> :=
    [A, S, D, Q, W, E, T, LeftArrow, RightArrow, DownArrow, UpArrow, Escape,
     R, F, Z, X, C, V, Return, One, Two, Three, Four, Five, Six, Seven, Eight, Nine]

  predicate Distinct(s: seq<KeyCode>) {
    forall i, j :: 0 <= i < j < |s| ==> s[i] != s[j]
  }

  /** The named keys are pairwise distinct: the only fact about their
      values that the rest of the model relies on. */
  lemma NamedKeysDistinct()
    ensures Distinct(Named)
  {
  }

  /** The flags a `CGEvent` can carry (`CGEventFlags`). */
  datatype EventFlag =
    | MaskCommand | MaskAlternate | MaskControl | MaskShift
    | MaskAlphaShift | MaskSecondaryFn | MaskHelp | MaskNumericPad | MaskNonCoalesced
}
