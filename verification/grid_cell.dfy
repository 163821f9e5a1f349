/** The static catalogue of grid cells (Sources/WManager/GridCell.swift):
    a 4 x 3 grid whose cells are bound to the Q-row, A-row and Z-row keys. */
module GridCells {
  import opened Wrappers
  import Keys

  datatype GridCell = GridCell(row: int, column: int, keyCode: Keys.KeyCode, keyLabel: string)

  const MaxColumns: nat := 4
  const MaxRows: nat := 3

  /** Row-major, top row first. */
  const All: seq<GridCell> := [
    GridCell(0, 0, Keys.Q, "Q"), GridCell(0, 1, Keys.W, "W"),
    GridCell(0, 2, Keys.E, "E"), GridCell(0, 3, Keys.R, "R"),
    GridCell(1, 0, Keys.A, "A"), GridCell(1, 1, Keys.S, "S"),
    GridCell(1, 2, Keys.D, "D"), GridCell(1, 3, Keys.F, "F"),
    GridCell(2, 0, Keys.Z, "Z"), GridCell(2, 1, Keys.X, "X"),
    GridCell(2, 2, Keys.C, "C"), GridCell(2, 3, Keys.V, "V")
  ]

  /** The catalogue has one entry per grid position, laid out row by row. */
  lemma CatalogueShape()
    ensures |All| == MaxRows * MaxColumns
    ensures forall i :: 0 <= i < |All| ==>
      All[i].row == i / MaxColumns && All[i].column == i % MaxColumns
  {
  }

  /** Every catalogue cell lies inside the grid. */
  lemma CatalogueInGrid(c: GridCell)
    requires c in All
    ensures 0 <= c.row < MaxRows && 0 <= c.column < MaxColumns
  {
  }

  /** No two catalogue cells share a key. */
  lemma CatalogueKeysDistinct()
    ensures forall i, j :: 0 <= i < j < |All| ==> All[i].keyCode != All[j].keyCode
  {
  }

  /** `cell(for:)`: the catalogue cell bound to key `k`. */
  function CellForKey(k: Keys.KeyCode): (r: Option<GridCell>)
    ensures r.Some? ==> r.value in All && r.value.keyCode == k
    ensures r.None? <==> forall c :: c in All ==> c.keyCode != k
  {
    FirstWhere(All, (c: GridCell) => c.keyCode == k)
  }

  /** The twelve catalogue keys. */
  const CatalogueKeys: set<Keys.KeyCode> :=
    {Keys.Q, Keys.W, Keys.E, Keys.R, Keys.A, Keys.S, Keys.D, Keys.F,
     Keys.Z, Keys.X, Keys.C, Keys.V}

  lemma CatalogueKeyIn(c: GridCell)
    requires c in All
    ensures c.keyCode in CatalogueKeys
  {
  }

  /** Keys outside the twelve catalogue keys select no cell. */
  lemma NonCatalogueKey(k: Keys.KeyCode)
    requires k !in CatalogueKeys
    ensures CellForKey(k).None?
  {
    forall c | c in All ensures c.keyCode != k {
      CatalogueKeyIn(c);
    }
  }

  /** `cell(row:column:)`: the catalogue cell at a grid position; `None`
      exactly when the position is outside the grid. */
  function CellAt(row: int, column: int): (r: Option<GridCell>)
    ensures r.Some? ==> r.value in All && r.value.row == row && r.value.column == column
    ensures r.Some? <==> 0 <= row < MaxRows && 0 <= column < MaxColumns
  {
    var r := FirstWhere(All, (c: GridCell) => c.row == row && c.column == column);
    assert 0 <= row < MaxRows && 0 <= column < MaxColumns ==> r.Some? by {
      if 0 <= row < MaxRows && 0 <= column < MaxColumns {
        var i := PositionInCatalogue(row, column);
      }
    }
    assert r.Some? ==> 0 <= row < MaxRows && 0 <= column < MaxColumns by {
      if r.Some? {
        CatalogueInGrid(r.value);
      }
    }
    r
  }

  /** Every grid position has its cell in the catalogue. */
  lemma PositionInCatalogue(row: int, column: int) returns (i: nat)
    requires 0 <= row < MaxRows && 0 <= column < MaxColumns
    ensures i < |All| && All[i].row == row && All[i].column == column
  {
    i := row * MaxColumns + column;
    CatalogueShape();
    assert i / MaxColumns == row && i % MaxColumns == column;
  }

  /** Looking up a catalogue cell by its own key finds that cell. */
  lemma CellForOwnKey(c: GridCell)
    requires c in All
    ensures CellForKey(c.keyCode) == Some(c)
  {
    var r := CellForKey(c.keyCode);
    CatalogueKeysDistinct();
    var i :| 0 <= i < |All| && All[i] == c;
    var j :| 0 <= j < |All| && All[j] == r.value;
    assert i == j;
  }

  /** Looking up a catalogue cell by its own position finds that cell. */
  lemma CellAtOwnPosition(c: GridCell)
    requires c in All
    ensures CellAt(c.row, c.column) == Some(c)
  {
    var r := CellAt(c.row, c.column);
    var i :| 0 <= i < |All| && All[i] == c;
    var j :| 0 <= j < |All| && All[j] == r.value;
    CatalogueShape();
    assert i == j;
  }
}
