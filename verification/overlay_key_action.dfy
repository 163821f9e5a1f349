/** What a key press means while the overlay is open
    (Sources/WManager/OverlayKeyAction.swift). */
module OverlayKeyAction {
  import opened Wrappers
  import opened GridCells
  import Keys

  datatype Action = Dismiss | Cell(cell: GridCell) | Passthrough

  /** `action(for:)`: Escape and Return dismiss; otherwise a catalogue key
      selects its cell; anything else passes through. */
  function ActionFor(k: Keys.KeyCode): (a: Action)
    ensures a.Dismiss? <==> k == Keys.Escape || k == Keys.Return
    ensures a.Cell? ==> a.cell in All && a.cell.keyCode == k
    ensures a.Cell? <==> !a.Dismiss? && CellForKey(k).Some?
    ensures a.Passthrough? <==> !a.Dismiss? && forall c :: c in All ==> c.keyCode != k
  {
    if k == Keys.Escape || k == Keys.Return then Dismiss
    else match CellForKey(k)
      case Some(c) => Cell(c)
      case None => Passthrough
  }

  /** Every catalogue key selects its own cell: the catalogue does not use
      Escape or Return. */
  lemma CatalogueKeysSelect(c: GridCell)
    requires c in All
    ensures ActionFor(c.keyCode) == Cell(c)
  {
    assert c.keyCode != Keys.Escape && c.keyCode != Keys.Return by {
      CatalogueKeyIn(c);
    }
    CellForOwnKey(c);
  }

  /** Q selects the top-left cell. */
  lemma QSelectsTopLeft()
    ensures CellAt(0, 0).Some? && ActionFor(Keys.Q) == Cell(CellAt(0, 0).value)
  {
    CatalogueKeysSelect(All[0]);
    CellAtOwnPosition(All[0]);
  }

  /** Keys outside the catalogue and other than the two dismiss keys pass
      through; for instance the arrow keys. */
  lemma ArrowsPassThrough(k: Keys.KeyCode)
    requires k in {Keys.LeftArrow, Keys.RightArrow, Keys.DownArrow, Keys.UpArrow}
    ensures ActionFor(k) == Passthrough
  {
    NonCatalogueKey(k);
  }
}
