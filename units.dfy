/**
 * The index from grid units to the cells covering them (core/navigation.py, the
 * `unit_to_cells` table the route analyser builds from the grid).
 */
module UnitIndex {
  import opened Grid
  import opened Geometry

  // ---------------------------------------------------------------------------------------
  // Cells by grid unit

  /** The cells of `cells` whose footprint holds `pos`, in list order. */
  function CellsAt(cells: seq<Cell>, pos: Pos): (r: seq<Cell>)
    ensures forall c :: c in r <==> c in cells && Occupies(c, pos.0, pos.1)
  {
    if cells == [] then []
    else
      var last := cells[|cells| - 1];
      assert forall c :: c in cells <==> c in cells[..|cells| - 1] || c == last;
      CellsAt(cells[..|cells| - 1], pos) + OnlyIf(Occupies(last, pos.0, pos.1), last)
  }

  /** The list a unit index holds for `pos`: empty when the unit has no entry. */
  function Units(m: map<Pos, seq<Cell>>, pos: Pos): seq<Cell> {
    if pos in m then m[pos] else []
  }

  /** A unit index in which every entry holds at least one cell. */
  predicate NoEmptyEntries(m: map<Pos, seq<Cell>>) {
    forall pos | pos in m :: m[pos] != []
  }

  /** `(p.0 + dx, p.1 + dy)`. */
  function Offset(p: Pos, dx: int, dy: int): Pos {
    (p.0 + dx, p.1 + dy)
  }

  /** `[c]` when `b` holds, otherwise nothing. */
  function OnlyIf(b: bool, c: Cell): seq<Cell> {
    if b then [c] else []
  }

  /** `pos` lies in the first `rows` rows of the footprint of `c`, or in the first `cols` units of the row after them. */
  predicate Registered(c: Cell, rows: int, cols: int, pos: Pos) {
    (c.col <= pos.0 < c.col + c.unitW && c.row <= pos.1 < c.row + rows) ||
    (c.col <= pos.0 < c.col + cols && pos.1 == c.row + rows)
  }

  /** Registers `c` under every unit of its footprint, row by row, after the cells already there. */
  method AddFootprint(m: map<Pos, seq<Cell>>, c: Cell) returns (m': map<Pos, seq<Cell>>)
    requires NoEmptyEntries(m)
    ensures NoEmptyEntries(m')
    ensures forall pos :: Units(m', pos) == Units(m, pos) + OnlyIf(Occupies(c, pos.0, pos.1), c)
  {
    m' := m;
    var rowOffset := 0;
    while rowOffset < c.unitH
      invariant NoEmptyEntries(m')
      invariant c.unitH > 0 ==> 0 <= rowOffset <= c.unitH
      invariant c.unitH <= 0 ==> rowOffset == 0
      invariant forall pos :: Units(m', pos) == Units(m, pos) + OnlyIf(Registered(c, rowOffset, 0, pos), c)
    {
      var colOffset := 0;
      while colOffset < c.unitW
        invariant NoEmptyEntries(m')
        invariant c.unitW > 0 ==> 0 <= colOffset <= c.unitW
        invariant c.unitW <= 0 ==> colOffset == 0
        invariant forall pos :: Units(m', pos) == Units(m, pos) + OnlyIf(Registered(c, rowOffset, colOffset, pos), c)
      {
        var unitPos := (c.col + colOffset, c.row + rowOffset);
        m' := m'[unitPos := Units(m', unitPos) + [c]];
        colOffset := colOffset + 1;
      }
      rowOffset := rowOffset + 1;
    }
  }
}
