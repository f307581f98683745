/**
 * The cell record of the floor-plan grid and the helpers that look cells up and convert
 * between grid units and pixels (core/grid.py).
 */
module Grid {
  import opened Wrappers

  /**
   * A rectangle of the floor plan: its pixel box (x, y, w, h), its grid-unit origin
   * (col, row), its footprint in grid units (unitW x unitH), a free-text category, an
   * optional display name and booth id, and its index `idx`.
   */
  datatype Cell = Cell(
    idx: int,
    x: int, y: int, w: int, h: int,
    col: int, row: int,
    unitW: int, unitH: int,
    cellType: string,
    name: Option<string>,
    boothId: Option<string>)

  /** A cell built from the required fields only: every other field takes its declared default. */
  function NewCell(idx: int, x: int, y: int, w: int, h: int, col: int, row: int): (c: Cell)
    ensures c.idx == idx && c.x == x && c.y == y && c.w == w && c.h == h
    ensures c.col == col && c.row == row
    ensures c.unitW == 1 && c.unitH == 1
    ensures c.cellType == "unknown" && c.name == None && c.boothId == None
  {
    Cell(idx, x, y, w, h, col, row, 1, 1, "unknown", None, None)
  }

  /** True when the grid unit (col, row) lies inside the footprint of `c`. */
  predicate Occupies(c: Cell, col: int, row: int) {
    c.col <= col < c.col + c.unitW && c.row <= row < c.row + c.unitH
  }

  /** The first cell of `cells`, in list order, whose index is `idx`; None when there is none. */
  function GetByIdx(cells: seq<Cell>, idx: int): (r: Option<Cell>)
    ensures r.None? <==> forall i :: 0 <= i < |cells| ==> cells[i].idx != idx
    ensures r.Some? ==>
      exists i :: 0 <= i < |cells| && cells[i] == r.value && r.value.idx == idx &&
        forall j :: 0 <= j < i ==> cells[j].idx != idx
  {
    if cells == [] then None
    else if cells[0].idx == idx then Some(cells[0])
    else
      var r := GetByIdx(cells[1..], idx);
      assert forall i :: 1 <= i < |cells| ==> cells[i] == cells[1..][i - 1];
      r
  }

  /**
   * The cell a dictionary keyed by `idx` and built from `cells` in list order holds for
   * `idx`: the LAST cell with that index, since later entries overwrite earlier ones.
   */
  function LastByIdx(cells: seq<Cell>, idx: int): (r: Option<Cell>)
    ensures r.None? <==> forall i :: 0 <= i < |cells| ==> cells[i].idx != idx
    ensures r.Some? ==>
      exists i :: 0 <= i < |cells| && cells[i] == r.value && r.value.idx == idx &&
        forall j :: i < j < |cells| ==> cells[j].idx != idx
  {
    if cells == [] then None
    else if cells[|cells| - 1].idx == idx then Some(cells[|cells| - 1])
    else LastByIdx(cells[..|cells| - 1], idx)
  }

  /**
   * The dictionary from cell index to cell built from `cells` in list order: later cells
   * overwrite earlier ones, so each index leads to the last cell carrying it.
   */
  function IdxMap(cells: seq<Cell>): (m: map<int, Cell>)
    ensures forall idx :: IdxLookup(m, idx) == LastByIdx(cells, idx)
  {
    if cells == [] then map[]
    else
      var last := cells[|cells| - 1];
      IdxMap(cells[..|cells| - 1])[last.idx := last]
  }

  /** The entry of a dictionary from cell index to cell, None when there is none. */
  function IdxLookup(m: map<int, Cell>, idx: int): Option<Cell> {
    if idx in m then Some(m[idx]) else None
  }

  /** When indices are unique, the first and the last cell with a given index are the same. */
  lemma {:induction false} UniqueIdxLookupsAgree(cells: seq<Cell>, idx: int)
    requires forall i, j :: 0 <= i < j < |cells| ==> cells[i].idx != cells[j].idx
    ensures GetByIdx(cells, idx) == LastByIdx(cells, idx)
  {
    var a, b := GetByIdx(cells, idx), LastByIdx(cells, idx);
    if a.Some? {
      var i :| 0 <= i < |cells| && cells[i] == a.value && a.value.idx == idx;
      var j :| 0 <= j < |cells| && cells[j] == b.value && b.value.idx == idx;
      assert i == j;
    }
  }

  /** Pixel size of one grid unit and the pixel position of grid unit (0, 0). */
  datatype GridMeta = GridMeta(unitW: int, unitH: int, originX: int, originY: int)

  /** The metadata used when no metadata file exists. */
  const DefaultMeta := GridMeta(186, 186, 0, 0)

  function Abs(n: int): nat {
    if n < 0 then -n else n
  }

  /**
   * Rounds the rational p / q to the nearest integer, halves going to the even neighbour
   * (the rounding of Python's built-in `round`).
   */
  function RoundHalfEven(p: int, q: int): (r: int)
    requires q != 0
    ensures 2 * Abs(p - r * q) <= Abs(q)
    ensures 2 * Abs(p - r * q) == Abs(q) ==> r % 2 == 0
  {
    if q > 0 then RoundPositive(p, q)
    else
      var r := RoundPositive(-p, -q);
      NegateError(p, q, r);
      r
  }

  lemma NegateError(p: int, q: int, r: int)
    ensures -p - r * -q == -(p - r * q)
  {
  }

  /** RoundHalfEven for a positive denominator: the floor quotient, or the one above it. */
  function RoundPositive(p: int, q: int): (r: int)
    requires q > 0
    ensures 2 * Abs(p - r * q) <= q
    ensures 2 * Abs(p - r * q) == q ==> r % 2 == 0
  {
    var f, rem := p / q, p % q;
    FloorSplit(p, q);
    if 2 * rem < q then f
    else if 2 * rem > q then f + 1
    else if f % 2 == 0 then f
    else f + 1
  }

  lemma FloorSplit(p: int, q: int)
    requires q > 0
    ensures p - (p / q) * q == p % q
    ensures p - (p / q + 1) * q == p % q - q
    ensures 0 <= p % q < q
  {
    var f := p / q;
    assert (f + 1) * q == f * q + q;
  }

  /** The pixel position of the top-left corner of grid unit (col, row). */
  function GridToPixel(col: int, row: int, meta: GridMeta): (int, int) {
    (meta.originX + col * meta.unitW, meta.originY + row * meta.unitH)
  }

  /** The grid unit whose corner is nearest to pixel (x, y) on each axis. */
  function PixelToGrid(x: int, y: int, meta: GridMeta): (p: (int, int))
    requires meta.unitW != 0 && meta.unitH != 0
    ensures 2 * Abs(x - meta.originX - p.0 * meta.unitW) <= Abs(meta.unitW)
    ensures 2 * Abs(y - meta.originY - p.1 * meta.unitH) <= Abs(meta.unitH)
  {
    (RoundHalfEven(x - meta.originX, meta.unitW), RoundHalfEven(y - meta.originY, meta.unitH))
  }

  /** A rounding whose error is below half a step is exact on multiples of the step. */
  lemma RoundOfMultiple(c: int, q: int)
    requires q != 0
    ensures RoundHalfEven(c * q, q) == c
  {
    var r := RoundHalfEven(c * q, q);
    var d := c - r;
    Distribute(c, r, q);
    assert 2 * Abs(d * q) <= Abs(q);
    if d != 0 {
      NonzeroMultiple(d, q);
    }
  }

  lemma Distribute(c: int, r: int, q: int)
    ensures c * q - r * q == (c - r) * q
  {
  }

  lemma NonzeroMultiple(d: int, q: int)
    requires d != 0
    ensures Abs(d * q) >= Abs(q)
  {
    MulAtLeast(Abs(d), Abs(q));
    SignedProduct(d, q);
  }

  lemma SignedProduct(d: int, q: int)
    ensures Abs(d * q) == Abs(d) * Abs(q)
  {
    if d < 0 && q < 0 {
      assert d * q == (-d) * (-q);
    } else if d < 0 {
      assert d * q == -((-d) * q);
    } else if q < 0 {
      assert d * q == -(d * (-q));
    }
  }

  lemma {:induction false} MulAtLeast(d: nat, q: nat)
    requires d >= 1
    ensures d * q >= q
    decreases d
  {
    if d > 1 {
      MulAtLeast(d - 1, q);
      assert d * q == (d - 1) * q + q;
    }
  }

  /** Converting a grid unit to pixels and back gives the same unit. */
  lemma PixelGridRoundTrip(col: int, row: int, meta: GridMeta)
    requires meta.unitW != 0 && meta.unitH != 0
    ensures var (x, y) := GridToPixel(col, row, meta); PixelToGrid(x, y, meta) == (col, row)
  {
    RoundOfMultiple(col, meta.unitW);
    RoundOfMultiple(row, meta.unitH);
  }
}
