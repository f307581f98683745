/**
 * The grid pathfinder (core/pathfinder.py): the walkable / cost / cell matrices built from
 * the cells, the boundary candidates around a cell, the multi-source multi-target A* search
 * and the conversion of its matrix path into a route.
 *
 * Grid units are written (col, row); matrix positions are written (row, col), as in the
 * source. Costs are exact reals.
 */
module Pathfinder {
  import opened Wrappers
  import opened Grid

  /** A matrix position (row, col). */
  type MPos = (int, int)

  /** What the type table says of one cell type; a missing key is None. */
  datatype TypeInfo = TypeInfo(isWalkable: Option<bool>, cost: Option<real>)

  type TypeRules = map<string, TypeInfo>

  /** Search options: diagonal moves, extra cost per change of direction, entering large areas. */
  datatype Options = Options(allowDiag: bool, turnWeight: real, allowEnterArea: bool)

  const DefaultOptions := Options(false, 0.0, false)

  /** The result of a search: cell route, unit path, edge count, geometric length, weighted cost. */
  datatype RouteResult = RouteResult(
    route: seq<int>,
    unitPath: seq<(int, int)>,
    steps: int,
    length: real,
    totalCost: real)

  /** The decimal rendering of the double nearest to the square root of two. */
  const Sqrt2: real := 1.4142135623730951

  /** Types that become enterable, at a raised cost, when `allowEnterArea` is set. */
  predicate IsEnterableArea(t: string) {
    t == "exp hall" || t == "stage" || t == "Lounge"
  }

  function RuleOf(types: TypeRules, t: string): TypeInfo {
    if t in types then types[t] else TypeInfo(None, None)
  }

  /** Every cost the type table gives is non-negative. */
  predicate NonNegativeRules(types: TypeRules) {
    forall t | t in types :: types[t].cost.Some? ==> types[t].cost.value >= 0.0
  }

  /** Whether a cell lets units it occupies stay walkable (unknown types do). */
  function CellWalkable(c: Cell, types: TypeRules, opts: Options): (r: bool)
    ensures opts.allowEnterArea && IsEnterableArea(c.cellType) ==> r
    ensures c.cellType !in types && !(opts.allowEnterArea && IsEnterableArea(c.cellType)) ==> r
  {
    if opts.allowEnterArea && IsEnterableArea(c.cellType) then true
    else RuleOf(types, c.cellType).isWalkable.GetOr(true)
  }

  /** The traversal cost a cell gives the units it occupies (1.0 for unknown types). */
  function CellCost(c: Cell, types: TypeRules, opts: Options): (r: real)
    ensures opts.allowEnterArea && IsEnterableArea(c.cellType) ==> r >= 2.0
    ensures NonNegativeRules(types) ==> r >= 0.0
  {
    var base := RuleOf(types, c.cellType).cost.GetOr(1.0);
    if opts.allowEnterArea && IsEnterableArea(c.cellType) then
      (if base >= 2.0 then base else 2.0)
    else base
  }

  /** The options in force when a call passes an options record or only the legacy flags. */
  function ResolveOptions(options: Option<Options>, diag: Option<bool>, allowEnterArea: Option<bool>): (r: Options)
    ensures options.Some? ==> r == options.value
    ensures options.None? ==>
      r.allowDiag == diag.GetOr(false) && r.allowEnterArea == allowEnterArea.GetOr(false) &&
      r.turnWeight == 0.0
  {
    match options
    case Some(o) => o
    case None => Options(diag.GetOr(false), 0.0, allowEnterArea.GetOr(false))
  }

  // ---------------------------------------------------------------------------------------
  // Grid bounds

  datatype Bounds = Bounds(minCol: int, maxCol: int, minRow: int, maxRow: int)

  /** A cell with a non-empty footprint. */
  predicate HasFootprint(c: Cell) {
    c.unitW > 0 && c.unitH > 0
  }

  /** Every unit of every footprint lies inside `b`. */
  ghost predicate CoversFootprints(cells: seq<Cell>, b: Bounds) {
    forall i, col, row | 0 <= i < |cells| && Occupies(cells[i], col, row) ::
      b.minCol <= col <= b.maxCol && b.minRow <= row <= b.maxRow
  }

  /**
   * `b` is the smallest box around all footprints, or the single unit (0, 0) when no cell
   * has a footprint.
   */
  ghost predicate TightBounds(cells: seq<Cell>, b: Bounds) {
    CoversFootprints(cells, b) &&
    ((forall i | 0 <= i < |cells| :: !HasFootprint(cells[i])) ==> b == Bounds(0, 0, 0, 0)) &&
    ((exists i | 0 <= i < |cells| :: HasFootprint(cells[i])) ==>
      (exists i | 0 <= i < |cells| :: HasFootprint(cells[i]) && cells[i].col == b.minCol) &&
      (exists i | 0 <= i < |cells| :: HasFootprint(cells[i]) && cells[i].col + cells[i].unitW - 1 == b.maxCol) &&
      (exists i | 0 <= i < |cells| :: HasFootprint(cells[i]) && cells[i].row == b.minRow) &&
      (exists i | 0 <= i < |cells| :: HasFootprint(cells[i]) && cells[i].row + cells[i].unitH - 1 == b.maxRow))
  }

  /**
   * The bounds of the grid: the extreme columns and rows over every unit of every cell
   * footprint (a footprint's extreme units are its corners).
   */
  method CalculateBounds(cells: seq<Cell>) returns (b: Bounds)
    ensures TightBounds(cells, b)
    ensures b.minCol <= b.maxCol && b.minRow <= b.maxRow
  {
    var found := false;
    b := Bounds(0, 0, 0, 0);
    for i := 0 to |cells|
      invariant found <==> exists k | 0 <= k < i :: HasFootprint(cells[k])
      invariant !found ==> b == Bounds(0, 0, 0, 0)
      invariant found ==> b.minCol <= b.maxCol && b.minRow <= b.maxRow
      invariant CoversFootprints(cells[..i], b)
      invariant found ==>
        (exists k | 0 <= k < i :: HasFootprint(cells[k]) && cells[k].col == b.minCol) &&
        (exists k | 0 <= k < i :: HasFootprint(cells[k]) && cells[k].col + cells[k].unitW - 1 == b.maxCol) &&
        (exists k | 0 <= k < i :: HasFootprint(cells[k]) && cells[k].row == b.minRow) &&
        (exists k | 0 <= k < i :: HasFootprint(cells[k]) && cells[k].row + cells[k].unitH - 1 == b.maxRow)
    {
      var c := cells[i];
      if HasFootprint(c) {
        var lastCol, lastRow := c.col + c.unitW - 1, c.row + c.unitH - 1;
        if !found {
          b := Bounds(c.col, lastCol, c.row, lastRow);
          found := true;
        } else {
          b := Bounds(
            if c.col < b.minCol then c.col else b.minCol,
            if lastCol > b.maxCol then lastCol else b.maxCol,
            if c.row < b.minRow then c.row else b.minRow,
            if lastRow > b.maxRow then lastRow else b.maxRow);
        }
      }
      assert cells[..i + 1] == cells[..i] + [c];
    }
    assert cells[..|cells|] == cells;
  }

  // ---------------------------------------------------------------------------------------
  // What the matrices hold, per grid unit, after the first n cells are registered

  /** The last cell of `cells` occupying unit (col, row). */
  function Owner(cells: seq<Cell>, col: int, row: int): (r: Option<Cell>)
    decreases |cells|
  {
    if cells == [] then None
    else if Occupies(cells[|cells| - 1], col, row) then Some(cells[|cells| - 1])
    else Owner(cells[..|cells| - 1], col, row)
  }

  /** A unit stays walkable unless some cell occupying it is non-walkable. */
  predicate UnitWalkable(cells: seq<Cell>, types: TypeRules, opts: Options, col: int, row: int)
    decreases |cells|
  {
    if cells == [] then true
    else
      UnitWalkable(cells[..|cells| - 1], types, opts, col, row) &&
      (Occupies(cells[|cells| - 1], col, row) ==> CellWalkable(cells[|cells| - 1], types, opts))
  }

  /** The cost of a unit: that of its last owner, 1.0 when no cell occupies it. */
  function UnitCost(cells: seq<Cell>, types: TypeRules, opts: Options, col: int, row: int): real {
    match Owner(cells, col, row)
    case None => 1.0
    case Some(c) => CellCost(c, types, opts)
  }

  /** The cell index recorded for a unit: that of its last owner, -1 when none. */
  function UnitCellIdx(cells: seq<Cell>, col: int, row: int): int {
    match Owner(cells, col, row)
    case None => -1
    case Some(c) => c.idx
  }

  /** A unit is walkable exactly when every cell occupying it is walkable. */
  lemma {:induction false} UnitWalkableIffAllOwners(cells: seq<Cell>, types: TypeRules, opts: Options, col: int, row: int)
    ensures UnitWalkable(cells, types, opts, col, row) <==>
      forall i | 0 <= i < |cells| :: Occupies(cells[i], col, row) ==> CellWalkable(cells[i], types, opts)
    decreases |cells|
  {
    if cells != [] {
      var init := cells[..|cells| - 1];
      UnitWalkableIffAllOwners(init, types, opts, col, row);
      assert forall i | 0 <= i < |init| :: init[i] == cells[i];
    }
  }

  /**
   * The owner of a unit is the last cell in list order occupying it; there is none exactly
   * when no cell occupies it.
   */
  lemma {:induction false} OwnerIsLastOccupant(cells: seq<Cell>, col: int, row: int)
    ensures Owner(cells, col, row).None? <==> forall i | 0 <= i < |cells| :: !Occupies(cells[i], col, row)
    ensures Owner(cells, col, row).Some? ==>
      exists i | 0 <= i < |cells| :: cells[i] == Owner(cells, col, row).value &&
        Occupies(cells[i], col, row) &&
        forall j | i < j < |cells| :: !Occupies(cells[j], col, row)
    decreases |cells|
  {
    if cells != [] {
      var init := cells[..|cells| - 1];
      OwnerIsLastOccupant(init, col, row);
      assert forall i | 0 <= i < |init| :: init[i] == cells[i];
      if !Occupies(cells[|cells| - 1], col, row) && Owner(init, col, row).Some? {
        var i :| 0 <= i < |init| && init[i] == Owner(init, col, row).value &&
          Occupies(init[i], col, row) && forall j | i < j < |init| :: !Occupies(init[j], col, row);
        assert cells[i] == Owner(cells, col, row).value;
      }
    }
  }

  /**
   * With `allowEnterArea`, a unit whose occupants are all large areas is walkable, and a
   * unit whose last occupant is a large area costs at least 2.0.
   */
  lemma EnterableAreaUnits(cells: seq<Cell>, types: TypeRules, opts: Options, col: int, row: int)
    requires opts.allowEnterArea
    ensures (forall i | 0 <= i < |cells| && Occupies(cells[i], col, row) :: IsEnterableArea(cells[i].cellType)) ==>
      UnitWalkable(cells, types, opts, col, row)
    ensures Owner(cells, col, row).Some? && IsEnterableArea(Owner(cells, col, row).value.cellType) ==>
      UnitCost(cells, types, opts, col, row) >= 2.0
  {
    UnitWalkableIffAllOwners(cells, types, opts, col, row);
  }

  /** Registering a prefix of cells one more cell at a time. */
  lemma PrefixStep(cells: seq<Cell>, i: int)
    requires 0 <= i < |cells|
    ensures cells[..i + 1][..i] == cells[..i] && cells[..i + 1][i] == cells[i]
    ensures |cells[..i + 1]| == i + 1
  {
  }

  /**
   * Writes one cell's footprint into the matrices: every footprint unit inside the matrix
   * gets the cell's cost and index, and loses walkability if the cell is non-walkable.
   */
  method PaintCell(c: Cell, isWalkable: bool, cellCost: real, minCol: int, minRow: int,
                   walkable: array2<bool>, cost: array2<real>, cellMap: array2<int>)
    requires cost.Length0 == walkable.Length0 && cellMap.Length0 == walkable.Length0
    requires cost.Length1 == walkable.Length1 && cellMap.Length1 == walkable.Length1
    modifies walkable, cost, cellMap
    ensures forall r, k | 0 <= r < walkable.Length0 && 0 <= k < walkable.Length1 ::
      if Occupies(c, k + minCol, r + minRow) then
        walkable[r, k] == (old(walkable[r, k]) && isWalkable) && cost[r, k] == cellCost && cellMap[r, k] == c.idx
      else
        walkable[r, k] == old(walkable[r, k]) && cost[r, k] == old(cost[r, k]) && cellMap[r, k] == old(cellMap[r, k])
  {
    var height, width := walkable.Length0, walkable.Length1;
    var dc := 0;
    while dc < c.unitW
      invariant 0 <= dc <= if c.unitW < 0 then 0 else c.unitW
      invariant forall r, k | 0 <= r < height && 0 <= k < width ::
        if Occupies(c, k + minCol, r + minRow) && k + minCol < c.col + dc then
          walkable[r, k] == (old(walkable[r, k]) && isWalkable) && cost[r, k] == cellCost && cellMap[r, k] == c.idx
        else
          walkable[r, k] == old(walkable[r, k]) && cost[r, k] == old(cost[r, k]) && cellMap[r, k] == old(cellMap[r, k])
    {
      var dr := 0;
      while dr < c.unitH
        invariant 0 <= dr <= if c.unitH < 0 then 0 else c.unitH
        invariant forall r, k | 0 <= r < height && 0 <= k < width ::
          if Occupies(c, k + minCol, r + minRow) &&
             (k + minCol < c.col + dc || (k + minCol == c.col + dc && r + minRow < c.row + dr)) then
            walkable[r, k] == (old(walkable[r, k]) && isWalkable) && cost[r, k] == cellCost && cellMap[r, k] == c.idx
          else
            walkable[r, k] == old(walkable[r, k]) && cost[r, k] == old(cost[r, k]) && cellMap[r, k] == old(cellMap[r, k])
      {
        var gridCol, gridRow := c.col + dc - minCol, c.row + dr - minRow;
        if 0 <= gridCol < width && 0 <= gridRow < height {
          if !isWalkable {
            walkable[gridRow, gridCol] := false;
          }
          cost[gridRow, gridCol] := cellCost;
          cellMap[gridRow, gridCol] := c.idx;
        }
        dr := dr + 1;
      }
      dc := dc + 1;
    }
  }

  /**
   * The walkable, cost and cell matrices of a grid with bounds `b`: every unit starts
   * walkable, at cost 1.0 and with no cell (-1); the cells are then registered in list order.
   */
  method BuildMatrices(cells: seq<Cell>, types: TypeRules, opts: Options, b: Bounds)
    returns (walkable: array2<bool>, cost: array2<real>, cellMap: array2<int>)
    requires b.minCol <= b.maxCol && b.minRow <= b.maxRow
    ensures fresh(walkable) && fresh(cost) && fresh(cellMap)
    ensures walkable.Length0 == b.maxRow - b.minRow + 1 && walkable.Length1 == b.maxCol - b.minCol + 1
    ensures cost.Length0 == walkable.Length0 && cost.Length1 == walkable.Length1
    ensures cellMap.Length0 == walkable.Length0 && cellMap.Length1 == walkable.Length1
    ensures forall r, k | 0 <= r < walkable.Length0 && 0 <= k < walkable.Length1 ::
      walkable[r, k] == UnitWalkable(cells, types, opts, k + b.minCol, r + b.minRow) &&
      cost[r, k] == UnitCost(cells, types, opts, k + b.minCol, r + b.minRow) &&
      cellMap[r, k] == UnitCellIdx(cells, k + b.minCol, r + b.minRow)
  {
    var height, width := b.maxRow - b.minRow + 1, b.maxCol - b.minCol + 1;
    walkable := new bool[height, width]((_, _) => true);
    cost := new real[height, width]((_, _) => 1.0);
    cellMap := new int[height, width]((_, _) => -1);
    for i := 0 to |cells|
      invariant forall r, k | 0 <= r < height && 0 <= k < width ::
        walkable[r, k] == UnitWalkable(cells[..i], types, opts, k + b.minCol, r + b.minRow) &&
        cost[r, k] == UnitCost(cells[..i], types, opts, k + b.minCol, r + b.minRow) &&
        cellMap[r, k] == UnitCellIdx(cells[..i], k + b.minCol, r + b.minRow)
    {
      var c := cells[i];
      PaintCell(c, CellWalkable(c, types, opts), CellCost(c, types, opts), b.minCol, b.minRow, walkable, cost, cellMap);
      PrefixStep(cells, i);
    }
    assert cells[..|cells|] == cells;
  }

  // ---------------------------------------------------------------------------------------
  // Moves

  /** Neighbour offsets (d_row, d_col) in the order the search tries them. */
  const Directions8: seq<(int, int)> := [(-1, -1), (-1, 0), (-1, 1), (0, -1), (0, 1), (1, -1), (1, 0), (1, 1)]
  const Directions4: seq<(int, int)> := [(-1, 0), (0, -1), (0, 1), (1, 0)]

  function Directions(diag: bool): seq<(int, int)> {
    if diag then Directions8 else Directions4
  }

  predicate IsDiagonal(d: (int, int)) {
    d.0 != 0 && d.1 != 0
  }

  /** The geometric length of one move: the square root of two diagonally, else 1. */
  function MoveDistance(p: MPos, q: MPos): real {
    if Abs(q.0 - p.0) == 1 && Abs(q.1 - p.1) == 1 then Sqrt2 else 1.0
  }

  // ---------------------------------------------------------------------------------------
  // The grid

  class PathfindingGrid {
    const cells: seq<Cell>
    const types: TypeRules
    const options: Options
    const minCol: int
    const maxCol: int
    const minRow: int
    const maxRow: int
    const width: int
    const height: int
    const walkable: array2<bool>
    const cost: array2<real>
    const cellMap: array2<int>

    /** The matrices have the grid's size and the bounds enclose every footprint. */
    ghost predicate Valid() {
      width == maxCol - minCol + 1 && height == maxRow - minRow + 1 &&
      width >= 1 && height >= 1 &&
      walkable.Length0 == height && walkable.Length1 == width &&
      cost.Length0 == height && cost.Length1 == width &&
      cellMap.Length0 == height && cellMap.Length1 == width
    }

    /** The matrices describe `cells` under `types` and `options`. */
    ghost predicate Describes()
      reads walkable, cost, cellMap
      requires Valid()
    {
      forall r, k | 0 <= r < height && 0 <= k < width ::
        walkable[r, k] == UnitWalkable(cells, types, options, k + minCol, r + minRow) &&
        cost[r, k] == UnitCost(cells, types, options, k + minCol, r + minRow) &&
        cellMap[r, k] == UnitCellIdx(cells, k + minCol, r + minRow)
    }

    constructor (cells: seq<Cell>, types: TypeRules, options: Options)
      ensures this.cells == cells && this.types == types && this.options == options
      ensures Valid() && Describes()
      ensures TightBounds(cells, Bounds(minCol, maxCol, minRow, maxRow))
      ensures fresh(walkable) && fresh(cost) && fresh(cellMap)
    {
      var b := CalculateBounds(cells);
      this.cells := cells;
      this.types := types;
      this.options := options;
      minCol, maxCol, minRow, maxRow := b.minCol, b.maxCol, b.minRow, b.maxRow;
      width, height := b.maxCol - b.minCol + 1, b.maxRow - b.minRow + 1;
      var w, c, m := BuildMatrices(cells, types, options, b);
      walkable, cost, cellMap := w, c, m;
    }

    /** The matrix position (row, col) of grid unit (col, row). */
    function GridToMatrix(col: int, row: int): MPos {
      (row - minRow, col - minCol)
    }

    /** The grid unit (col, row) of matrix position (row, col). */
    function MatrixToGrid(matrixRow: int, matrixCol: int): (int, int) {
      (matrixCol + minCol, matrixRow + minRow)
    }

    lemma GridMatrixRoundTrip(col: int, row: int, matrixRow: int, matrixCol: int)
      ensures var (r, c) := GridToMatrix(col, row); MatrixToGrid(r, c) == (col, row)
      ensures var (c, r) := MatrixToGrid(matrixRow, matrixCol); GridToMatrix(c, r) == (matrixRow, matrixCol)
    {
    }

    predicate InBounds(p: MPos) {
      0 <= p.0 < height && 0 <= p.1 < width
    }

    /** A matrix position inside the grid whose unit is walkable. */
    predicate Open(p: MPos)
      reads walkable
      requires Valid()
    {
      InBounds(p) && walkable[p.0, p.1]
    }

    /** The grid unit (col, row) is inside the grid and walkable. */
    predicate WalkableUnit(col: int, row: int)
      reads walkable
      requires Valid()
    {
      Open(GridToMatrix(col, row))
    }

    /** Every unit of the grid costs at least zero. */
    ghost predicate NonNegativeCosts()
      reads cost
      requires Valid()
    {
      forall r, k | 0 <= r < height && 0 <= k < width :: cost[r, k] >= 0.0
    }

    lemma CostsFromRules()
      requires Valid() && Describes() && NonNegativeRules(types)
      ensures NonNegativeCosts()
    {
      forall r, k | 0 <= r < height && 0 <= k < width
        ensures cost[r, k] >= 0.0
      {
        match Owner(cells, k + minCol, r + minRow)
        case None =>
        case Some(c) => assert CellCost(c, types, options) >= 0.0;
      }
    }

    // -------------------------------------------------------------------------------------
    // Boundary candidates

    /**
     * The walkable units of the one-unit ring around a cell's footprint, in column-major
     * order; none for an unknown cell index.
     */
    method FindWalkableCandidates(boothIdx: int) returns (cands: seq<(int, int)>)
      requires Valid()
      ensures LastByIdx(cells, boothIdx).None? ==> cands == []
      ensures LastByIdx(cells, boothIdx).Some? ==>
        forall col, row :: (col, row) in cands <==>
          InRing(LastByIdx(cells, boothIdx).value, col, row) && WalkableUnit(col, row)
      ensures forall i, j | 0 <= i < j < |cands| :: ColumnMajorBefore(cands[i], cands[j])
    {
      cands := [];
      var found := LastByIdx(cells, boothIdx);
      if found.None? {
        return;
      }
      var booth := found.value;
      var firstCol, lastCol := booth.col, booth.col + booth.unitW - 1;
      var firstRow, lastRow := booth.row, booth.row + booth.unitH - 1;
      var col := firstCol - 1;
      while col < lastCol + 2
        invariant col >= firstCol - 1
        invariant forall c, r :: (c, r) in cands <==>
          c < col && InRing(booth, c, r) && WalkableUnit(c, r)
        invariant forall i, j | 0 <= i < j < |cands| :: ColumnMajorBefore(cands[i], cands[j])
        invariant forall i | 0 <= i < |cands| :: cands[i].0 < col
      {
        cands := ScanRingColumn(booth, col, cands);
        col := col + 1;
      }
    }

    /** One column of the ring, top to bottom: its walkable units appended in row order. */
    method ScanRingColumn(booth: Cell, col: int, cands: seq<(int, int)>) returns (cands': seq<(int, int)>)
      requires Valid() && booth.col - 1 <= col <= booth.col + booth.unitW
      requires forall c, r :: (c, r) in cands <==> c < col && InRing(booth, c, r) && WalkableUnit(c, r)
      requires forall i, j | 0 <= i < j < |cands| :: ColumnMajorBefore(cands[i], cands[j])
      requires forall i | 0 <= i < |cands| :: cands[i].0 < col
      ensures forall c, r :: (c, r) in cands' <==> c < col + 1 && InRing(booth, c, r) && WalkableUnit(c, r)
      ensures forall i, j | 0 <= i < j < |cands'| :: ColumnMajorBefore(cands'[i], cands'[j])
      ensures forall i | 0 <= i < |cands'| :: cands'[i].0 < col + 1
    {
      cands' := cands;
      var firstCol, lastCol := booth.col, booth.col + booth.unitW - 1;
      var firstRow, lastRow := booth.row, booth.row + booth.unitH - 1;
      var row := firstRow - 1;
      while row < lastRow + 2
        invariant row >= firstRow - 1
        invariant forall c, r :: (c, r) in cands' <==>
          (c < col || (c == col && r < row)) && InRing(booth, c, r) && WalkableUnit(c, r)
        invariant forall i, j | 0 <= i < j < |cands'| :: ColumnMajorBefore(cands'[i], cands'[j])
        invariant forall i | 0 <= i < |cands'| :: cands'[i].0 < col || (cands'[i].0 == col && cands'[i].1 < row)
      {
        if !(firstCol <= col <= lastCol && firstRow <= row <= lastRow) {
          var (matrixRow, matrixCol) := GridToMatrix(col, row);
          if 0 <= matrixRow < height && 0 <= matrixCol < width && walkable[matrixRow, matrixCol] {
            cands' := cands' + [(col, row)];
          }
        }
        row := row + 1;
      }
    }

    /**
     * The walkable ring unit nearest the footprint's centre (ties broken by column, then
     * row); failing that, the first walkable unit an eight-direction breadth-first search
     * from the footprint's centre unit reaches. None for an unknown cell index.
     */
    method FindWalkableNearBooth(boothIdx: int) returns (r: Option<(int, int)>)
      requires Valid()
      ensures LastByIdx(cells, boothIdx).None? ==> r.None?
      ensures r.Some? ==> WalkableUnit(r.value.0, r.value.1)
      ensures LastByIdx(cells, boothIdx).Some? ==>
        var booth := LastByIdx(cells, boothIdx).value;
        (exists col, row :: InRing(booth, col, row) && WalkableUnit(col, row)) ==>
          r.Some? && InRing(booth, r.value.0, r.value.1) &&
          forall col, row :: InRing(booth, col, row) && WalkableUnit(col, row) ==>
            NearKeyLe(booth, r.value, (col, row))
    {
      var found := LastByIdx(cells, boothIdx);
      if found.None? {
        return None;
      }
      var booth := found.value;
      var cands := FindWalkableCandidates(boothIdx);
      if |cands| > 0 {
        var best := cands[0];
        for i := 1 to |cands|
          invariant best in cands
          invariant forall j | 0 <= j < i :: NearKeyLe(booth, best, cands[j])
        {
          if NearKeyLess(booth, cands[i], best) {
            best := cands[i];
          }
        }
        return Some(best);
      }
      var centerCol, centerRow := booth.col + FloorDiv2(booth.unitW), booth.row + FloorDiv2(booth.unitH);
      r := SearchWalkableFrom(GridToMatrix(centerCol, centerRow));
    }

    /**
     * Eight-direction breadth-first search over matrix positions from `start`: the grid unit
     * of the first walkable in-bounds position it dequeues, or None when the queue empties.
     * Positions outside the grid are dequeued but never expanded.
     */
    method SearchWalkableFrom(start: MPos) returns (r: Option<(int, int)>)
      requires Valid()
      ensures r.Some? ==> WalkableUnit(r.value.0, r.value.1)
    {
      var queue: seq<MPos> := [start];
      var visited: set<MPos> := {};
      while queue != []
        decreases |Unvisited(visited)|, |queue|
      {
        var current := queue[0];
        queue := queue[1..];
        if current in visited {
          continue;
        }
        if !InBounds(current) {
          visited := visited + {current};
          assert Unvisited(visited) == Unvisited(visited - {current});
          continue;
        }
        assert Unvisited(visited + {current}) == Unvisited(visited) - {current};
        visited := visited + {current};
        if walkable[current.0, current.1] {
          GridMatrixRoundTrip(0, 0, current.0, current.1);
          return Some(MatrixToGrid(current.0, current.1));
        }
        for k := 0 to |Directions8|
        {
          var next := (current.0 + Directions8[k].0, current.1 + Directions8[k].1);
          if next !in visited {
            queue := queue + [next];
          }
        }
      }
      return None;
    }

    /** The in-bounds positions not yet visited. */
    function Unvisited(visited: set<MPos>): set<MPos> {
      set r, k | 0 <= r < height && 0 <= k < width && (r, k) !in visited :: (r, k)
    }

    // -------------------------------------------------------------------------------------
    // A* search

    /** A side unit of a diagonal move is blocked when it is outside the grid or not walkable. */
    predicate Blocked(p: MPos)
      reads walkable
      requires Valid()
    {
      !Open(p)
    }

    /**
     * One move from `p` to `q`: an offset of the direction set, and, for a diagonal, not
     * both orthogonal side units blocked (no corner cutting).
     */
    predicate StepOk(p: MPos, q: MPos, diag: bool)
      reads walkable
      requires Valid()
    {
      var d := (q.0 - p.0, q.1 - p.1);
      d in Directions(diag) &&
      (IsDiagonal(d) ==> !(Blocked((p.0 + d.0, p.1)) && Blocked((p.0, p.1 + d.1))))
    }

    /** A matrix path from `starts` to `goals` over open positions by allowed moves. */
    ghost predicate SearchPath(path: seq<MPos>, starts: seq<MPos>, goals: set<MPos>, diag: bool)
      reads walkable
      requires Valid()
    {
      |path| >= 1 && path[0] in starts && path[|path| - 1] in goals &&
      (forall i | 0 <= i < |path| :: Open(path[i])) &&
      (forall i | 0 <= i < |path| - 1 :: StepOk(path[i], path[i + 1], diag))
    }

    /** The search state the main loop keeps: what `g_score` and `came_from` record. */
    ghost predicate SearchInvariant(starts: seq<MPos>, g: map<MPos, real>, cameFrom: map<MPos, Link>, diag: bool)
      reads walkable
      requires Valid()
    {
      (forall n | n in g :: Open(n)) &&
      (forall n | n in g && n !in cameFrom :: n in starts) &&
      (forall n | n in cameFrom ::
        n in g && cameFrom[n].prev in g && g[cameFrom[n].prev] <= g[n] &&
        StepOk(cameFrom[n].prev, n, diag)) &&
      Acyclic(cameFrom)
    }

    /**
     * Records a cheaper way to reach `nb` from `current` by direction `d`: the search state
     * stays consistent because a move never costs less than nothing.
     */
    lemma RelaxKeepsInvariant(starts: seq<MPos>, g: map<MPos, real>, cameFrom: map<MPos, Link>, diag: bool,
                              current: MPos, nb: MPos, d: (int, int), tentative: real)
      requires Valid() && SearchInvariant(starts, g, cameFrom, diag)
      requires current in g && Open(nb) && StepOk(current, nb, diag) && d == (nb.0 - current.0, nb.1 - current.1)
      requires tentative >= g[current]
      requires nb !in g || tentative < g[nb]
      ensures SearchInvariant(starts, g[nb := tentative], cameFrom[nb := Link(current, d)], diag)
    {
      assert nb != current by {
        assert d in Directions(diag);
      }
      if j: nat :| Reaches(cameFrom, current, nb, j) {
        ChainDescends(g, cameFrom, current, nb, j);
        if nb !in g {
          ReachedIsRecorded(g, cameFrom, current, nb, j);
        }
      }
      AddLinkKeepsAcyclic(cameFrom, nb, Link(current, d));
      var g', cf' := g[nb := tentative], cameFrom[nb := Link(current, d)];
      forall n | n in cf'
        ensures n in g' && cf'[n].prev in g' && g'[cf'[n].prev] <= g'[n] && StepOk(cf'[n].prev, n, diag)
      {
        if n != nb {
          assert cf'[n] == cameFrom[n];
        }
      }
    }

    /**
     * One round's neighbour relaxation around `current`, direction by direction.
     */
    method ExpandNeighbours(starts: seq<MPos>, goals: set<MPos>, diag: bool, turnWeight: real,
                            h: (MPos, set<MPos>) -> real, current: MPos,
                            g0: map<MPos, real>, cameFrom0: map<MPos, Link>, open0: seq<Entry>)
      returns (g: map<MPos, real>, cameFrom: map<MPos, Link>, open: seq<Entry>)
      requires Valid() && NonNegativeCosts()
      requires SearchInvariant(starts, g0, cameFrom0, diag) && current in g0
      requires forall e | e in open0 :: (e.1, e.2) in g0
      ensures SearchInvariant(starts, g, cameFrom, diag)
      ensures forall e | e in open :: (e.1, e.2) in g
      ensures |open| >= |open0| && open[..|open0|] == open0
    {
      g, cameFrom, open := g0, cameFrom0, open0;
      var dirs := Directions(diag);
      for k := 0 to |dirs|
        invariant SearchInvariant(starts, g, cameFrom, diag)
        invariant forall e | e in open :: (e.1, e.2) in g
        invariant current in g
        invariant |open| >= |open0| && open[..|open0|] == open0
      {
        ghost var before := open;
        g, cameFrom, open := RelaxNeighbour(starts, goals, diag, turnWeight, h, current, dirs[k], g, cameFrom, open);
        assert open[..|open0|] == before[..|open0|];
      }
    }

    /**
     * Relaxes the neighbour of `current` in direction `d`: when it is in bounds, walkable,
     * reached without cutting a corner and more cheaply than recorded, it gets the new cost,
     * a link back to `current` and an open-set entry; otherwise nothing changes.
     */
    method RelaxNeighbour(starts: seq<MPos>, goals: set<MPos>, diag: bool, turnWeight: real,
                          h: (MPos, set<MPos>) -> real, current: MPos, d: (int, int),
                          g0: map<MPos, real>, cameFrom0: map<MPos, Link>, open0: seq<Entry>)
      returns (g: map<MPos, real>, cameFrom: map<MPos, Link>, open: seq<Entry>)
      requires Valid() && NonNegativeCosts()
      requires SearchInvariant(starts, g0, cameFrom0, diag) && current in g0
      requires forall e | e in open0 :: (e.1, e.2) in g0
      requires d in Directions(diag)
      ensures SearchInvariant(starts, g, cameFrom, diag)
      ensures forall e | e in open :: (e.1, e.2) in g
      ensures current in g
      ensures open == open0 || (|open| == |open0| + 1 && open[..|open0|] == open0)
    {
      g, cameFrom, open := g0, cameFrom0, open0;
      var nb := (current.0 + d.0, current.1 + d.1);
      if !(InBounds(nb) && walkable[nb.0, nb.1]) {
        return;
      }
      if diag && IsDiagonal(d) {
        var side1, side2 := (current.0 + d.0, current.1), (current.0, current.1 + d.1);
        var side1Blocked := !(InBounds(side1) && walkable[side1.0, side1.1]);
        var side2Blocked := !(InBounds(side2) && walkable[side2.0, side2.1]);
        if side1Blocked && side2Blocked {
          return;
        }
      }
      var tentative := g[current] + cost[nb.0, nb.1] * MoveMultiplier(d);
      if turnWeight > 0.0 && current in cameFrom {
        if cameFrom[current].dir != d {
          tentative := tentative + turnWeight;
        }
      }
      if nb !in g || tentative < g[nb] {
        assert StepOk(current, nb, diag);
        RelaxKeepsInvariant(starts, g, cameFrom, diag, current, nb, d, tentative);
        cameFrom := cameFrom[nb := Link(current, d)];
        g := g[nb := tentative];
        open := open + [(tentative + h(nb, goals), nb.0, nb.1)];
      }
    }

    /** A path rebuilt from the links of a consistent search state is a search path. */
    lemma ReconstructedIsSearchPath(starts: seq<MPos>, goals: set<MPos>, g: map<MPos, real>,
                                    cameFrom: map<MPos, Link>, diag: bool, p: seq<MPos>)
      requires Valid() && SearchInvariant(starts, g, cameFrom, diag)
      requires |p| >= 1 && p[0] !in cameFrom && p[|p| - 1] in goals && p[|p| - 1] in g
      requires forall i | 1 <= i < |p| :: LinkedPair(cameFrom, p[i - 1], p[i])
      ensures SearchPath(p, starts, goals, diag)
      ensures p[|p| - 1] !in cameFrom ==> |p| == 1
    {
      if |p| > 1 {
        assert LinkedPair(cameFrom, p[|p| - 2], p[|p| - 1]);
      }
      forall i | 0 <= i < |p|
        ensures p[i] in g
      {
        if i < |p| - 1 {
          assert LinkedPair(cameFrom, p[i], p[i + 1]);
        }
      }
      forall i | 0 <= i < |p| - 1
        ensures StepOk(p[i], p[i + 1], diag)
      {
        assert LinkedPair(cameFrom, p[i], p[i + 1]);
      }
    }

    /**
     * The multi-source, multi-target A* loop over matrix positions, popping the least
     * (f, row, col) entry each round and relaxing its neighbours; a change of direction
     * adds `turnWeight` when that is positive. `h` is the heuristic towards the goal set.
     * `fuel` bounds the number of rounds.
     */
    method Search(starts: seq<MPos>, goals: set<MPos>, diag: bool, turnWeight: real,
                  h: (MPos, set<MPos>) -> real, fuel: nat) returns (path: Option<seq<MPos>>)
      requires Valid() && NonNegativeCosts()
      requires forall s | s in starts :: Open(s)
      requires forall p, G :: h(p, G) >= 0.0 && (h(p, G) == 0.0 <==> p in G)
      ensures path.Some? ==> SearchPath(path.value, starts, goals, diag)
      ensures forall s | s in starts && s in goals :: fuel > 0 ==> path.Some? && |path.value| == 1
    {
      var open, g := InitialOpenSet(starts, goals, h);
      var cameFrom: map<MPos, Link> := map[];
      var iter := 0;
      while iter < fuel && open != []
        invariant SearchInvariant(starts, g, cameFrom, diag)
        invariant forall e | e in open :: (e.1, e.2) in g
        invariant forall s | s in starts && s in goals :: iter == 0
        invariant iter == 0 ==>
          cameFrom == map[] &&
          (forall e | e in open :: e.0 == h((e.1, e.2), goals)) &&
          (forall s | s in starts :: (h(s, goals), s.0, s.1) in open)
        decreases fuel - iter
      {
        var entry, rest := PopMin(open);
        ghost var popped := open;
        open := rest;
        var current := (entry.1, entry.2);
        if iter == 0 && exists s :: s in starts && s in goals {
          var s :| s in starts && s in goals;
          FirstPopIsGoal(popped, entry, s, goals, h);
        }
        if current in goals {
          var p := ReconstructPath(cameFrom, current);
          ReconstructedIsSearchPath(starts, goals, g, cameFrom, diag, p);
          return Some(p);
        }
        g, cameFrom, open := ExpandNeighbours(starts, goals, diag, turnWeight, h, current, g, cameFrom, open);
        iter := iter + 1;
      }
      forall s | s in starts && s in goals
        ensures fuel == 0
      {
        assert (h(s, goals), s.0, s.1) in open;
      }
      return None;
    }

    // -------------------------------------------------------------------------------------
    // Route conversion

    /** Every position of a matrix path is inside the grid. */
    predicate PathInBounds(path: seq<MPos>) {
      forall i | 0 <= i < |path| :: 0 <= path[i].0 < height && 0 <= path[i].1 < width
    }

    /** The cell indices the cell matrix records at the first `n` positions of a matrix path. */
    function CellIdsAlong(path: seq<MPos>, n: nat): (ids: seq<int>)
      reads cellMap
      requires Valid() && PathInBounds(path) && n <= |path|
      ensures |ids| == n
      ensures forall i {:trigger ids[i]} | 0 <= i < n :: ids[i] == cellMap[path[i].0, path[i].1]
    {
      if n == 0 then [] else CellIdsAlong(path, n - 1) + [cellMap[path[n - 1].0, path[n - 1].1]]
    }

    /** The grid units of the first `n` positions of a matrix path. */
    function UnitsAlong(path: seq<MPos>, n: nat): (units: seq<(int, int)>)
      requires n <= |path|
      ensures |units| == n
      ensures forall i {:trigger units[i]} | 0 <= i < n :: units[i] == MatrixToGrid(path[i].0, path[i].1)
    {
      if n == 0 then [] else UnitsAlong(path, n - 1) + [MatrixToGrid(path[n - 1].0, path[n - 1].1)]
    }

    /**
     * The weighted cost of the first `n` positions of a matrix path: each move costs its
     * destination's cost times its length.
     */
    function PrefixCost(path: seq<MPos>, n: nat): real
      reads cost
      requires Valid() && PathInBounds(path) && n <= |path|
    {
      if n <= 1 then 0.0 else PrefixCost(path, n - 1) + MoveCost(path, n - 1)
    }

    /** The cost of the move into position `k` of a path: the unit's cost times the move's length. */
    function MoveCost(path: seq<MPos>, k: nat): real
      reads cost
      requires Valid() && PathInBounds(path) && 1 <= k < |path|
    {
      cost[path[k].0, path[k].1] * MoveDistance(path[k - 1], path[k])
    }

    /** The weighted cost of a whole matrix path. */
    function PathCost(path: seq<MPos>): real
      reads cost
      requires Valid() && PathInBounds(path)
    {
      PrefixCost(path, |path|)
    }

    /** With non-negative unit costs, the weighted cost of every prefix is non-negative. */
    lemma {:induction false} PrefixCostNonNegative(path: seq<MPos>, n: nat)
      requires Valid() && NonNegativeCosts() && PathInBounds(path) && n <= |path|
      ensures PrefixCost(path, n) >= 0.0
    {
      if n > 1 {
        PrefixCostNonNegative(path, n - 1);
        assert cost[path[n - 1].0, path[n - 1].1] >= 0.0;
        assert MoveDistance(path[n - 2], path[n - 1]) >= 1.0;
      }
    }

    /** Where every unit on the path costs 1.0, the weighted cost of a prefix is its geometric length. */
    lemma {:induction false} UnitCostIsLength(path: seq<MPos>, n: nat)
      requires Valid() && PathInBounds(path) && n <= |path|
      requires forall i | 0 <= i < |path| :: cost[path[i].0, path[i].1] == 1.0
      ensures PrefixCost(path, n) == PathLength(path, n)
    {
      if n > 1 {
        UnitCostIsLength(path, n - 1);
      }
    }

    /** One more position of a path extends each of the summaries `PathToRouteResult` keeps. */
    lemma RouteStep(path: seq<MPos>, i: nat)
      requires Valid() && PathInBounds(path) && i < |path|
      ensures UnitsAlong(path, i + 1) == UnitsAlong(path, i) + [MatrixToGrid(path[i].0, path[i].1)]
      ensures Collapse(CellIdsAlong(path, i + 1)) == AppendIndex(Collapse(CellIdsAlong(path, i)), cellMap[path[i].0, path[i].1])
      ensures PathLength(path, i + 1) == PathLength(path, i) + if i > 0 then MoveDistance(path[i - 1], path[i]) else 0.0
      ensures PrefixCost(path, i + 1) == PrefixCost(path, i) + if i > 0 then MoveCost(path, i) else 0.0
    {
      CollapseStep(CellIdsAlong(path, i), cellMap[path[i].0, path[i].1]);
    }

    /**
     * Converts a matrix path into a route: the unit path, the visited cell indices with
     * runs and empty units dropped, the number of moves, the geometric length and the
     * weighted cost (turn penalties are not part of it).
     */
    method PathToRouteResult(path: seq<MPos>) returns (r: RouteResult)
      requires Valid() && PathInBounds(path)
      ensures |r.unitPath| == |path| && forall i | 0 <= i < |path| :: r.unitPath[i] == MatrixToGrid(path[i].0, path[i].1)
      ensures r.steps == |path| - 1
      ensures r.route == Collapse(CellIdsAlong(path, |path|))
      ensures r.length == PathLength(path, |path|)
      ensures r.totalCost == PathCost(path)
    {
      var route: seq<int> := [];
      var unitPath: seq<(int, int)> := [];
      var totalCost, totalLength := 0.0, 0.0;
      for i := 0 to |path|
        invariant unitPath == UnitsAlong(path, i)
        invariant route == Collapse(CellIdsAlong(path, i))
        invariant totalLength == PathLength(path, i)
        invariant totalCost == PrefixCost(path, i)
      {
        var (matrixRow, matrixCol) := path[i];
        RouteStep(path, i);
        unitPath := unitPath + [MatrixToGrid(matrixRow, matrixCol)];
        var cellIdx := cellMap[matrixRow, matrixCol];
        route := AppendIndex(route, cellIdx);
        if i > 0 {
          var moveDistance := MoveDistance(path[i - 1], path[i]);
          totalLength := totalLength + moveDistance;
          totalCost := totalCost + MoveCost(path, i);
        }
      }
      r := RouteResult(route, unitPath, |path| - 1, totalLength, totalCost);
    }

    // -------------------------------------------------------------------------------------
    // The searches on grid units

    /**
     * A unit path through walkable units only, by moves of the direction set that never
     * cut a corner.
     */
    ghost predicate UnitPathOk(unitPath: seq<(int, int)>, diag: bool)
      reads walkable
      requires Valid()
    {
      (forall i | 0 <= i < |unitPath| :: WalkableUnit(unitPath[i].0, unitPath[i].1)) &&
      (forall i | 0 <= i < |unitPath| - 1 ::
        StepOk(GridToMatrix(unitPath[i].0, unitPath[i].1), GridToMatrix(unitPath[i + 1].0, unitPath[i + 1].1), diag))
    }

    /** The unit path of a route built from a search path moves as the search path does. */
    lemma UnitPathOfSearchPath(path: seq<MPos>, r: RouteResult, starts: seq<MPos>, goals: set<MPos>, diag: bool)
      requires Valid() && SearchPath(path, starts, goals, diag)
      requires |r.unitPath| == |path| && forall i | 0 <= i < |path| :: r.unitPath[i] == MatrixToGrid(path[i].0, path[i].1)
      ensures UnitPathOk(r.unitPath, diag)
      ensures forall i | 0 <= i < |path| :: GridToMatrix(r.unitPath[i].0, r.unitPath[i].1) == path[i]
    {
      forall i | 0 <= i < |path|
        ensures GridToMatrix(r.unitPath[i].0, r.unitPath[i].1) == path[i]
      {
        GridMatrixRoundTrip(0, 0, path[i].0, path[i].1);
      }
    }

    /** The matrix positions of the start units that lie on the grid and are walkable, in order. */
    method OpenStarts(startNodes: seq<(int, int)>) returns (startMatrix: seq<MPos>)
      requires Valid()
      ensures forall m :: m in startMatrix <==> Open(m) && MatrixToGrid(m.0, m.1) in startNodes
      ensures forall q | q in startNodes && WalkableUnit(q.0, q.1) :: GridToMatrix(q.0, q.1) in startMatrix
    {
      startMatrix := [];
      for i := 0 to |startNodes|
        invariant forall m :: m in startMatrix <==> Open(m) && MatrixToGrid(m.0, m.1) in startNodes[..i]
      {
        var (col, row) := startNodes[i];
        var (matrixRow, matrixCol) := GridToMatrix(col, row);
        GridMatrixRoundTrip(col, row, 0, 0);
        assert startNodes[..i + 1] == startNodes[..i] + [(col, row)];
        forall m: MPos | MatrixToGrid(m.0, m.1) == (col, row)
          ensures m == (matrixRow, matrixCol)
        {
          GridMatrixRoundTrip(0, 0, m.0, m.1);
        }
        if 0 <= matrixRow < height && 0 <= matrixCol < width && walkable[matrixRow, matrixCol] {
          startMatrix := startMatrix + [(matrixRow, matrixCol)];
        }
      }
      assert startNodes[..|startNodes|] == startNodes;
      forall q | q in startNodes && WalkableUnit(q.0, q.1)
        ensures GridToMatrix(q.0, q.1) in startMatrix
      {
        GridMatrixRoundTrip(q.0, q.1, 0, 0);
      }
    }

    /** The matrix positions of the goal units that lie on the grid and are walkable. */
    method OpenGoals(goalSet: set<(int, int)>) returns (goalMatrix: set<MPos>)
      requires Valid()
      ensures forall m :: m in goalMatrix <==> Open(m) && MatrixToGrid(m.0, m.1) in goalSet
      ensures forall q | q in goalSet && WalkableUnit(q.0, q.1) :: GridToMatrix(q.0, q.1) in goalMatrix
    {
      goalMatrix := {};
      var remaining := goalSet;
      while remaining != {}
        invariant remaining <= goalSet
        invariant forall m :: m in goalMatrix <==> Open(m) && MatrixToGrid(m.0, m.1) in goalSet - remaining
        decreases |remaining|
      {
        var q :| q in remaining;
        var (matrixRow, matrixCol) := GridToMatrix(q.0, q.1);
        GridMatrixRoundTrip(q.0, q.1, 0, 0);
        forall m: MPos | MatrixToGrid(m.0, m.1) == q
          ensures m == (matrixRow, matrixCol)
        {
          GridMatrixRoundTrip(0, 0, m.0, m.1);
        }
        if 0 <= matrixRow < height && 0 <= matrixCol < width && walkable[matrixRow, matrixCol] {
          goalMatrix := goalMatrix + {(matrixRow, matrixCol)};
        }
        remaining := remaining - {q};
      }
      forall q | q in goalSet && WalkableUnit(q.0, q.1)
        ensures GridToMatrix(q.0, q.1) in goalMatrix
      {
        GridMatrixRoundTrip(q.0, q.1, 0, 0);
      }
    }

    /**
     * A route found between start units and goal units: its unit path runs from a start to a
     * goal through walkable units by allowed moves, one step per move, and its booth route
     * holds no empty index and no index twice in a row.
     */
    ghost predicate RouteBetween(r: RouteResult, startNodes: seq<(int, int)>, goalSet: set<(int, int)>, diag: bool)
      reads walkable
      requires Valid()
    {
      var up := r.unitPath;
      |up| >= 1 && up[0] in startNodes && up[|up| - 1] in goalSet &&
      UnitPathOk(up, diag) && r.steps == |up| - 1 &&
      (forall i | 0 <= i < |r.route| :: r.route[i] != -1) &&
      NoRepeats(r.route)
    }

    /** A route built from a search path runs between a start unit and a goal unit it was given. */
    lemma RouteOfSearchPath(path: seq<MPos>, r: RouteResult, startNodes: seq<(int, int)>, goalSet: set<(int, int)>,
                            startMatrix: seq<MPos>, goalMatrix: set<MPos>, diag: bool)
      requires Valid() && SearchPath(path, startMatrix, goalMatrix, diag)
      requires forall m | m in startMatrix :: MatrixToGrid(m.0, m.1) in startNodes
      requires forall m | m in goalMatrix :: MatrixToGrid(m.0, m.1) in goalSet
      requires |r.unitPath| == |path| && forall i | 0 <= i < |path| :: r.unitPath[i] == MatrixToGrid(path[i].0, path[i].1)
      requires r.steps == |path| - 1 && r.route == Collapse(CellIdsAlong(path, |path|))
      ensures RouteBetween(r, startNodes, goalSet, diag)
      ensures WalkableUnit(r.unitPath[0].0, r.unitPath[0].1)
      ensures WalkableUnit(r.unitPath[|r.unitPath| - 1].0, r.unitPath[|r.unitPath| - 1].1)
    {
      UnitPathOfSearchPath(path, r, startMatrix, goalMatrix, diag);
      CollapseFacts(CellIdsAlong(path, |path|));
    }

    /** Some unit is both a start and a goal, and walkable. */
    ghost predicate SharedWalkableUnit(startNodes: seq<(int, int)>, goalSet: set<(int, int)>)
      reads walkable
      requires Valid()
    {
      exists s :: s in startNodes && s in goalSet && WalkableUnit(s.0, s.1)
    }

    /** A walkable unit that is both a start and a goal gives a matrix position in both filtered sets. */
    lemma SharedUnitIsSharedPosition(startNodes: seq<(int, int)>, goalSet: set<(int, int)>,
                                     startMatrix: seq<MPos>, goalMatrix: set<MPos>) returns (m: MPos)
      requires Valid()
      requires forall q | q in startNodes && WalkableUnit(q.0, q.1) :: GridToMatrix(q.0, q.1) in startMatrix
      requires forall q | q in goalSet && WalkableUnit(q.0, q.1) :: GridToMatrix(q.0, q.1) in goalMatrix
      ensures SharedWalkableUnit(startNodes, goalSet) ==> m in startMatrix && m in goalMatrix
    {
      m := (0, 0);
      if SharedWalkableUnit(startNodes, goalSet) {
        var s :| s in startNodes && s in goalSet && WalkableUnit(s.0, s.1);
        m := GridToMatrix(s.0, s.1);
      }
    }

    /**
     * Multi-source, multi-target A*: the start and goal units outside the grid or not
     * walkable are dropped; the search runs with the grid's options.
     */
    method AStarMulti(startNodes: seq<(int, int)>, goalSet: set<(int, int)>,
                      h: (MPos, set<MPos>) -> real, fuel: nat) returns (r: Option<RouteResult>)
      requires Valid() && NonNegativeCosts()
      requires forall p, G :: h(p, G) >= 0.0 && (h(p, G) == 0.0 <==> p in G)
      ensures startNodes == [] || goalSet == {} ==> r.None?
      ensures (forall q | q in startNodes :: !WalkableUnit(q.0, q.1)) ==> r.None?
      ensures (forall q | q in goalSet :: !WalkableUnit(q.0, q.1)) ==> r.None?
      ensures r.Some? ==> RouteBetween(r.value, startNodes, goalSet, options.allowDiag)
      ensures SharedWalkableUnit(startNodes, goalSet) && fuel > 0 ==>
        r.Some? && r.value.steps == 0 && r.value.length == 0.0
    {
      if |startNodes| == 0 || |goalSet| == 0 {
        return None;
      }
      var startMatrix := OpenStarts(startNodes);
      var goalMatrix := OpenGoals(goalSet);
      ghost var shared := SharedUnitIsSharedPosition(startNodes, goalSet, startMatrix, goalMatrix);
      if startMatrix == [] || goalMatrix == {} {
        return None;
      }
      r := SearchRoute(startNodes, goalSet, startMatrix, goalMatrix, h, fuel);
    }

    /**
     * The search of `AStarMulti` once the start and goal units are filtered to open matrix
     * positions, and the conversion of the path found into a route.
     */
    method SearchRoute(startNodes: seq<(int, int)>, goalSet: set<(int, int)>, startMatrix: seq<MPos>, goalMatrix: set<MPos>,
                       h: (MPos, set<MPos>) -> real, fuel: nat) returns (r: Option<RouteResult>)
      requires Valid() && NonNegativeCosts()
      requires forall m | m in startMatrix :: Open(m) && MatrixToGrid(m.0, m.1) in startNodes
      requires forall m | m in goalMatrix :: MatrixToGrid(m.0, m.1) in goalSet
      requires forall p, G :: h(p, G) >= 0.0 && (h(p, G) == 0.0 <==> p in G)
      ensures r.Some? ==> RouteBetween(r.value, startNodes, goalSet, options.allowDiag)
      ensures r.Some? ==>
        WalkableUnit(r.value.unitPath[0].0, r.value.unitPath[0].1) &&
        WalkableUnit(r.value.unitPath[|r.value.unitPath| - 1].0, r.value.unitPath[|r.value.unitPath| - 1].1)
      ensures forall s | s in startMatrix && s in goalMatrix :: fuel > 0 ==> r.Some? && r.value.steps == 0 && r.value.length == 0.0
    {
      var path := Search(startMatrix, goalMatrix, options.allowDiag, options.turnWeight, h, fuel);
      if path.None? {
        return None;
      }
      var result := PathToRouteResult(path.value);
      RouteOfSearchPath(path.value, result, startNodes, goalSet, startMatrix, goalMatrix, options.allowDiag);
      r := Some(result);
    }

    /**
     * Single-target A* between two grid units, always with eight directions, no corner
     * cutting and no turn penalty; None when either unit is outside the grid or not walkable.
     */
    method AStar(startCol: int, startRow: int, endCol: int, endRow: int,
                 h: (MPos, set<MPos>) -> real, fuel: nat) returns (r: Option<RouteResult>)
      requires Valid() && NonNegativeCosts()
      requires forall p, G :: h(p, G) >= 0.0 && (h(p, G) == 0.0 <==> p in G)
      ensures !WalkableUnit(startCol, startRow) || !WalkableUnit(endCol, endRow) ==> r.None?
      ensures r.Some? ==> RouteBetween(r.value, [(startCol, startRow)], {(endCol, endRow)}, true)
      ensures WalkableUnit(startCol, startRow) && (startCol, startRow) == (endCol, endRow) && fuel > 0 ==>
        r.Some? && r.value.steps == 0 && r.value.length == 0.0
    {
      var (startMatrixRow, startMatrixCol) := GridToMatrix(startCol, startRow);
      var (endMatrixRow, endMatrixCol) := GridToMatrix(endCol, endRow);
      if !(0 <= startMatrixRow < height && 0 <= startMatrixCol < width) {
        return None;
      }
      if !(0 <= endMatrixRow < height && 0 <= endMatrixCol < width) {
        return None;
      }
      if !(walkable[startMatrixRow, startMatrixCol] && walkable[endMatrixRow, endMatrixCol]) {
        return None;
      }
      var start, end := (startMatrixRow, startMatrixCol), (endMatrixRow, endMatrixCol);
      var path := Search([start], {end}, true, 0.0, h, fuel);
      if path.None? {
        return None;
      }
      var result := PathToRouteResult(path.value);
      GridMatrixRoundTrip(startCol, startRow, 0, 0);
      GridMatrixRoundTrip(endCol, endRow, 0, 0);
      RouteOfSearchPath(path.value, result, [(startCol, startRow)], {(endCol, endRow)}, [start], {end}, true);
      return Some(result);
    }
    /** Some unit of the one-unit ring around the footprint of `b` is inside the grid and walkable. */
    ghost predicate RingHasWalkable(b: Cell)
      reads walkable
      requires Valid()
    {
      exists col, row :: InRing(b, col, row) && WalkableUnit(col, row)
    }

    /**
     * A route between the cells with indices `startIdx` and `endIdx` as `RouteBetweenBooths`
     * promises it: both indices on the cell route, no index twice in a row, a unit path
     * through walkable units by allowed moves, starting in the start cell's ring and ending
     * in the end cell's ring whenever those rings hold a walkable unit.
     */
    ghost predicate BoothRoute(r: RouteResult, startIdx: int, endIdx: int)
      reads walkable
      requires Valid()
    {
      var up := r.unitPath;
      LastByIdx(cells, startIdx).Some? && LastByIdx(cells, endIdx).Some? &&
      startIdx in r.route && endIdx in r.route && NoRepeats(r.route) &&
      |up| >= 1 && r.steps == |up| - 1 && UnitPathOk(up, options.allowDiag) &&
      (RingHasWalkable(LastByIdx(cells, startIdx).value) ==>
        InRing(LastByIdx(cells, startIdx).value, up[0].0, up[0].1)) &&
      (RingHasWalkable(LastByIdx(cells, endIdx).value) ==>
        InRing(LastByIdx(cells, endIdx).value, up[|up| - 1].0, up[|up| - 1].1))
    }

    /**
     * The units a search from or to a cell may use: its walkable ring units, or, when it has
     * none, the single unit the nearest-walkable search finds. None when neither gives a unit.
     */
    method BoothCandidates(boothIdx: int) returns (cands: Option<seq<(int, int)>>)
      requires Valid()
      ensures LastByIdx(cells, boothIdx).None? ==> cands.None?
      ensures cands.Some? ==> |cands.value| >= 1 && LastByIdx(cells, boothIdx).Some?
      ensures cands.Some? ==> forall q | q in cands.value :: WalkableUnit(q.0, q.1)
      ensures LastByIdx(cells, boothIdx).Some? && RingHasWalkable(LastByIdx(cells, boothIdx).value) ==>
        cands.Some? && forall q | q in cands.value :: InRing(LastByIdx(cells, boothIdx).value, q.0, q.1)
    {
      var ring := FindWalkableCandidates(boothIdx);
      if ring != [] {
        return Some(ring);
      }
      var nearest := FindWalkableNearBooth(boothIdx);
      if nearest.None? {
        return None;
      }
      return Some([nearest.value]);
    }

    /**
     * The route between two cells on this grid: the walkable ring units around each cell
     * are the starts and the goals (failing those, the single unit the nearest-walkable
     * search finds), multi-source A* joins them, and the cells' own indices are added to
     * the route when it lacks them.
     */
    method RouteBetweenBooths(startIdx: int, endIdx: int, h: (MPos, set<MPos>) -> real, fuel: nat)
      returns (r: Option<RouteResult>)
      requires Valid() && NonNegativeCosts()
      requires forall p, G :: h(p, G) >= 0.0 && (h(p, G) == 0.0 <==> p in G)
      ensures LastByIdx(cells, startIdx).None? || LastByIdx(cells, endIdx).None? ==> r.None?
      ensures r.Some? ==> BoothRoute(r.value, startIdx, endIdx)
    {
      var startCandidates := BoothCandidates(startIdx);
      if startCandidates.None? {
        return None;
      }
      var endCandidates := BoothCandidates(endIdx);
      if endCandidates.None? {
        return None;
      }
      var endSet := set q | q in endCandidates.value;
      var result := AStarMulti(startCandidates.value, endSet, h, fuel);
      if result.None? {
        return None;
      }
      var found := result.value;
      r := Some(RouteResult(WithEndpoints(found.route, startIdx, endIdx), found.unitPath, found.steps,
                            found.length, found.totalCost));
    }
  }

  /** (col, row) lies in the one-unit ring around the footprint of `b`, outside the footprint. */
  predicate InRing(b: Cell, col: int, row: int) {
    b.col - 1 <= col <= b.col + b.unitW && b.row - 1 <= row <= b.row + b.unitH &&
    !(b.col <= col <= b.col + b.unitW - 1 && b.row <= row <= b.row + b.unitH - 1)
  }

  /** Column-major order of grid units: by column, then by row. */
  predicate ColumnMajorBefore(p: (int, int), q: (int, int)) {
    p.0 < q.0 || (p.0 == q.0 && p.1 < q.1)
  }

  /** Floor division by two, as Python's `//`. */
  function FloorDiv2(n: int): int {
    n / 2
  }

  /**
   * Four times the squared distance from unit (col, row) to the footprint's centre; it orders
   * units as the Euclidean distance does.
   */
  function CentreDistance4(b: Cell, p: (int, int)): int {
    var dx, dy := 2 * p.0 - 2 * b.col - b.unitW, 2 * p.1 - 2 * b.row - b.unitH;
    dx * dx + dy * dy
  }

  /** The sort key (distance to centre, col, row), compared lexicographically. */
  predicate NearKeyLess(b: Cell, p: (int, int), q: (int, int)) {
    CentreDistance4(b, p) < CentreDistance4(b, q) ||
    (CentreDistance4(b, p) == CentreDistance4(b, q) && ColumnMajorBefore(p, q))
  }

  predicate NearKeyLe(b: Cell, p: (int, int), q: (int, int)) {
    p == q || NearKeyLess(b, p, q)
  }

  // ---------------------------------------------------------------------------------------
  // Route summaries

  /**
   * The cell route of a sequence of recorded cell indices: empty units (-1) are skipped and
   * an index equal to the last one kept is not repeated.
   */
  function Collapse(ids: seq<int>): seq<int> {
    if ids == [] then [] else AppendIndex(Collapse(ids[..|ids| - 1]), ids[|ids| - 1])
  }

  /** No index appears twice in a row. */
  predicate NoRepeats(route: seq<int>) {
    forall i | 0 <= i < |route| - 1 :: route[i] != route[i + 1]
  }

  /** A route extended by one recorded index: kept unless empty or equal to the route's last index. */
  function AppendIndex(route: seq<int>, x: int): seq<int> {
    if x != -1 && (route == [] || route[|route| - 1] != x) then route + [x] else route
  }

  /** Collapsing one more index appends it to the collapsed prefix as the route building does. */
  lemma CollapseStep(ids: seq<int>, x: int)
    ensures Collapse(ids + [x]) == AppendIndex(Collapse(ids), x)
  {
    assert (ids + [x])[..|ids|] == ids;
  }

  /**
   * The collapsed route holds exactly the non-empty indices of the input, never -1, and
   * never the same index twice in a row.
   */
  lemma {:induction false} CollapseFacts(ids: seq<int>)
    ensures forall x :: x in Collapse(ids) <==> x in ids && x != -1
    ensures forall i | 0 <= i < |Collapse(ids)| :: Collapse(ids)[i] != -1
    ensures NoRepeats(Collapse(ids))
    decreases |ids|
  {
    if ids != [] {
      var init := ids[..|ids| - 1];
      CollapseFacts(init);
      assert ids == init + [ids[|ids| - 1]];
    }
  }

  /** The geometric length of the first `n` positions of a matrix path: the sum of their move distances. */
  function PathLength(path: seq<MPos>, n: nat): real
    requires n <= |path|
  {
    if n <= 1 then 0.0 else PathLength(path, n - 1) + MoveDistance(path[n - 2], path[n - 1])
  }

  /** The number of diagonal moves among the first `n` positions of a path. */
  function DiagonalMoves(path: seq<MPos>, n: nat): (d: nat)
    requires n <= |path|
    ensures n >= 1 ==> d <= n - 1
  {
    if n <= 1 then 0
    else
      DiagonalMoves(path, n - 1) +
      if Abs(path[n - 1].0 - path[n - 2].0) == 1 && Abs(path[n - 1].1 - path[n - 2].1) == 1 then 1 else 0
  }

  /** A path's length is its orthogonal moves plus the square root of two per diagonal move. */
  lemma {:induction false} PathLengthSplit(path: seq<MPos>, n: nat)
    requires 1 <= n <= |path|
    ensures PathLength(path, n) == (n - 1 - DiagonalMoves(path, n)) as real + Sqrt2 * DiagonalMoves(path, n) as real
  {
    if n > 1 {
      PathLengthSplit(path, n - 1);
    }
  }

  // ---------------------------------------------------------------------------------------
  // The open set

  /** An open-set entry (f, row, col). */
  type Entry = (real, int, int)

  /** The order of the heap's tuples: by f, then row, then column. */
  predicate EntryLe(a: Entry, b: Entry) {
    a.0 < b.0 || (a.0 == b.0 && (a.1 < b.1 || (a.1 == b.1 && a.2 <= b.2)))
  }

  /** Removes one least entry of the open set, as a heap pop does. */
  method PopMin(open: seq<Entry>) returns (e: Entry, rest: seq<Entry>)
    requires open != []
    ensures e in open
    ensures forall x | x in open :: EntryLe(e, x)
    ensures multiset(rest) + multiset{e} == multiset(open)
    ensures forall x | x in rest :: x in open
  {
    var k := 0;
    for i := 1 to |open|
      invariant 0 <= k < |open|
      invariant forall j | 0 <= j < i :: EntryLe(open[k], open[j])
    {
      if !EntryLe(open[k], open[i]) {
        k := i;
      }
    }
    e := open[k];
    rest := open[..k] + open[k + 1..];
    assert open == open[..k] + [e] + open[k + 1..];
    forall x | x in rest
      ensures x in open
    {
      assert x in multiset(rest);
    }
  }

  /**
   * The search's starting state: every start costs 0 and has an open-set entry whose f is
   * its heuristic value, in the order of `starts`.
   */
  method InitialOpenSet(starts: seq<MPos>, goals: set<MPos>, h: (MPos, set<MPos>) -> real)
    returns (open: seq<Entry>, g: map<MPos, real>)
    ensures |open| == |starts| && forall i | 0 <= i < |starts| :: open[i] == (h(starts[i], goals), starts[i].0, starts[i].1)
    ensures forall n | n in g :: n in starts && g[n] == 0.0
    ensures forall s | s in starts :: s in g && (h(s, goals), s.0, s.1) in open
    ensures forall e | e in open :: (e.1, e.2) in g && e.0 == h((e.1, e.2), goals)
  {
    open, g := [], map[];
    for i := 0 to |starts|
      invariant |open| == i && forall j | 0 <= j < i :: open[j] == (h(starts[j], goals), starts[j].0, starts[j].1)
      invariant forall n | n in g :: n in starts[..i] && g[n] == 0.0
      invariant forall s | s in starts[..i] :: s in g && (h(s, goals), s.0, s.1) in open
      invariant forall e | e in open :: (e.1, e.2) in g && e.0 == h((e.1, e.2), goals)
    {
      var s := starts[i];
      g := g[s := 0.0];
      open := open + [(h(s, goals), s.0, s.1)];
    }
    assert starts[..|starts|] == starts;
  }

  /**
   * In the first round every entry carries f = h >= 0 and a start that is a goal carries
   * f = 0, so the least entry is a goal.
   */
  lemma FirstPopIsGoal(open: seq<Entry>, e: Entry, s: MPos, goals: set<MPos>, h: (MPos, set<MPos>) -> real)
    requires forall p, G :: h(p, G) >= 0.0 && (h(p, G) == 0.0 <==> p in G)
    requires forall x | x in open :: x.0 == h((x.1, x.2), goals)
    requires e in open && forall x | x in open :: EntryLe(e, x)
    requires s in goals && (h(s, goals), s.0, s.1) in open
    ensures (e.1, e.2) in goals
  {
    assert EntryLe(e, (h(s, goals), s.0, s.1));
    assert h((e.1, e.2), goals) >= 0.0;
  }

  // ---------------------------------------------------------------------------------------
  // The came-from links of the search

  /** The predecessor of a position and the direction of the move that reached it. */
  datatype Link = Link(prev: MPos, dir: (int, int))

  /** The extra move factor of a direction: the square root of two for a diagonal. */
  function MoveMultiplier(d: (int, int)): (m: real)
    ensures m >= 1.0
    ensures IsDiagonal(d) <==> m == Sqrt2
  {
    if IsDiagonal(d) then Sqrt2 else 1.0
  }

  /** `q` has a link whose predecessor is `p`. */
  predicate LinkedPair(cameFrom: map<MPos, Link>, p: MPos, q: MPos) {
    q in cameFrom && cameFrom[q].prev == p
  }

  /** The `m`-th position of a backwards walk has a link to the next one. */
  predicate LinkedAt(cameFrom: map<MPos, Link>, walk: seq<MPos>, m: nat)
    requires m < |walk| - 1
  {
    LinkedPair(cameFrom, walk[m + 1], walk[m])
  }

  /** Following `k` links from `x` ends at `y`. */
  ghost predicate Reaches(cameFrom: map<MPos, Link>, x: MPos, y: MPos, k: nat)
    decreases k
  {
    if k == 0 then x == y
    else x in cameFrom && Reaches(cameFrom, cameFrom[x].prev, y, k - 1)
  }

  /** No position leads back to itself by following links. */
  ghost predicate Acyclic(cameFrom: map<MPos, Link>) {
    forall x, k: nat | k >= 1 :: !Reaches(cameFrom, x, x, k)
  }

  lemma {:induction false} ReachesConcat(cameFrom: map<MPos, Link>, x: MPos, y: MPos, z: MPos, i: nat, j: nat)
    requires Reaches(cameFrom, x, y, i) && Reaches(cameFrom, y, z, j)
    ensures Reaches(cameFrom, x, z, i + j)
    decreases i
  {
    if i > 0 {
      ReachesConcat(cameFrom, cameFrom[x].prev, y, z, i - 1, j);
    }
  }

  /**
   * A walk under `cameFrom[a := l]` either is a walk under `cameFrom` (`through` false), or
   * reaches `a` under `cameFrom` in `j` links and continues from there.
   */
  lemma {:induction false} ReachesAfterUpdate(cameFrom: map<MPos, Link>, a: MPos, l: Link, x: MPos, y: MPos, k: nat)
    returns (through: bool, j: nat)
    requires Reaches(cameFrom[a := l], x, y, k)
    ensures !through ==> Reaches(cameFrom, x, y, k)
    ensures through ==> j <= k && Reaches(cameFrom, x, a, j) && Reaches(cameFrom[a := l], a, y, k - j)
    decreases k
  {
    var cf' := cameFrom[a := l];
    if k == 0 {
      return false, 0;
    }
    if x == a {
      return true, 0;
    }
    var next := cameFrom[x].prev;
    assert cf'[x] == cameFrom[x];
    var t, i := ReachesAfterUpdate(cameFrom, a, l, next, y, k - 1);
    return t, i + 1;
  }

  /** Linking `a` to a predecessor that does not lead back to `a` keeps the links acyclic. */
  lemma AddLinkKeepsAcyclic(cameFrom: map<MPos, Link>, a: MPos, l: Link)
    requires Acyclic(cameFrom)
    requires forall j: nat :: !Reaches(cameFrom, l.prev, a, j)
    ensures Acyclic(cameFrom[a := l])
  {
    var cf' := cameFrom[a := l];
    forall x, k: nat | k >= 1
      ensures !Reaches(cf', x, x, k)
    {
      if Reaches(cf', x, x, k) {
        var through, j := ReachesAfterUpdate(cameFrom, a, l, x, x, k);
        if through && k - j > 0 {
          assert Reaches(cf', l.prev, x, k - j - 1);
          var again, i := ReachesAfterUpdate(cameFrom, a, l, l.prev, x, k - j - 1);
          if !again {
            ReachesConcat(cameFrom, l.prev, x, a, k - j - 1, j);
          }
        }
      }
    }
  }

  /**
   * Following links never raises the recorded cost, so a position reached from `x`
   * costs at most what `x` costs.
   */
  lemma {:induction false} ChainDescends(g: map<MPos, real>, cameFrom: map<MPos, Link>, x: MPos, y: MPos, k: nat)
    requires forall n | n in cameFrom :: n in g && cameFrom[n].prev in g && g[cameFrom[n].prev] <= g[n]
    requires x in g && Reaches(cameFrom, x, y, k)
    ensures y in g && g[y] <= g[x]
    decreases k
  {
    if k > 0 {
      ChainDescends(g, cameFrom, cameFrom[x].prev, y, k - 1);
    }
  }

  /** Every position a chain of links passes through has a recorded cost. */
  lemma ReachedIsRecorded(g: map<MPos, real>, cameFrom: map<MPos, Link>, x: MPos, y: MPos, k: nat)
    requires forall n | n in cameFrom :: n in g && cameFrom[n].prev in g && g[cameFrom[n].prev] <= g[n]
    requires x in g && Reaches(cameFrom, x, y, k)
    ensures y in g
  {
    ChainDescends(g, cameFrom, x, y, k);
  }

  /** A walk that follows links from its first element to its last. */
  lemma {:induction false} WalkReaches(cameFrom: map<MPos, Link>, walk: seq<MPos>, i: nat)
    requires i < |walk|
    requires forall m | 0 <= m < |walk| - 1 :: LinkedAt(cameFrom, walk, m)
    ensures Reaches(cameFrom, walk[i], walk[|walk| - 1], |walk| - 1 - i)
    decreases |walk| - i
  {
    if i < |walk| - 1 {
      assert LinkedAt(cameFrom, walk, i);
      WalkReaches(cameFrom, walk, i + 1);
    }
  }

  /** The reverse of a sequence. */
  function Reverse<T>(s: seq<T>): (r: seq<T>)
    ensures |r| == |s|
    ensures forall i | 0 <= i < |s| :: r[i] == s[|s| - 1 - i]
  {
    if s == [] then [] else Reverse(s[1..]) + [s[0]]
  }

  /**
   * Follows the links back from `goal` until a position without one, then reverses: the
   * path starts at a position with no link, ends at `goal`, and each position is the
   * recorded predecessor of the next.
   */
  method ReconstructPath(cameFrom: map<MPos, Link>, goal: MPos) returns (path: seq<MPos>)
    requires Acyclic(cameFrom)
    ensures |path| >= 1 && path[0] !in cameFrom && path[|path| - 1] == goal
    ensures forall i | 1 <= i < |path| :: LinkedPair(cameFrom, path[i - 1], path[i])
  {
    var current := goal;
    var walk := [current];
    while current in cameFrom
      invariant |walk| >= 1 && walk[0] == goal && walk[|walk| - 1] == current
      invariant forall m | 0 <= m < |walk| - 1 :: LinkedAt(cameFrom, walk, m)
      invariant Distinct(walk)
      invariant |walk| - 1 <= |cameFrom.Keys|
      decreases |cameFrom.Keys| - (|walk| - 1)
    {
      ghost var before := walk;
      current := cameFrom[current].prev;
      walk := walk + [current];
      ExtendWalk(cameFrom, before, walk);
    }
    path := Reverse(walk);
    ReversedWalkFollowsLinks(cameFrom, walk, path);
  }

  /** No position occurs twice. */
  predicate Distinct(s: seq<MPos>) {
    forall a, b | 0 <= a < b < |s| :: s[a] != s[b]
  }

  /** Distinct elements of a set are at most as many as the set has. */
  lemma {:induction false} DistinctWithin(s: seq<MPos>, keys: set<MPos>)
    requires Distinct(s) && forall i | 0 <= i < |s| :: s[i] in keys
    ensures |s| <= |keys|
    decreases |s|
  {
    if s != [] {
      var rest := keys - {s[0]};
      forall i | 0 <= i < |s[1..]|
        ensures s[1..][i] in rest
      {
        assert s[1..][i] == s[i + 1];
      }
      DistinctWithin(s[1..], rest);
    }
  }

  /**
   * Following one more link from a distinct backwards walk keeps it distinct under acyclic
   * links, and keeps its link-following part within the linked positions.
   */
  lemma ExtendWalk(cameFrom: map<MPos, Link>, before: seq<MPos>, walk: seq<MPos>)
    requires Acyclic(cameFrom)
    requires |before| >= 1 && forall m | 0 <= m < |before| - 1 :: LinkedAt(cameFrom, before, m)
    requires Distinct(before)
    requires before[|before| - 1] in cameFrom
    requires walk == before + [cameFrom[before[|before| - 1]].prev]
    ensures forall m | 0 <= m < |walk| - 1 :: LinkedAt(cameFrom, walk, m)
    ensures Distinct(walk)
    ensures |walk| - 1 <= |cameFrom.Keys|
  {
    forall m | 0 <= m < |walk| - 1
      ensures LinkedAt(cameFrom, walk, m)
    {
      if m < |before| - 1 {
        assert LinkedAt(cameFrom, before, m);
      }
    }
    forall a, b | 0 <= a < b < |walk|
      ensures walk[a] != walk[b]
    {
      if b == |walk| - 1 && walk[a] == walk[b] {
        WalkReaches(cameFrom, walk, a);
        assert false;
      }
    }
    forall i | 0 <= i < |before|
      ensures before[i] in cameFrom
    {
      if i < |before| - 1 {
        assert LinkedAt(cameFrom, before, i);
      }
    }
    DistinctWithin(before, cameFrom.Keys);
  }

  /** Reversing a backwards walk gives a path in which each position links to the one before. */
  lemma ReversedWalkFollowsLinks(cameFrom: map<MPos, Link>, walk: seq<MPos>, path: seq<MPos>)
    requires forall m | 0 <= m < |walk| - 1 :: LinkedAt(cameFrom, walk, m)
    requires |path| == |walk| && forall i | 0 <= i < |walk| :: path[i] == walk[|walk| - 1 - i]
    ensures forall i | 1 <= i < |path| :: LinkedPair(cameFrom, path[i - 1], path[i])
  {
    forall i | 1 <= i < |path|
      ensures LinkedPair(cameFrom, path[i - 1], path[i])
    {
      var m := |walk| - 1 - i;
      assert LinkedAt(cameFrom, walk, m);
      assert path[i] == walk[m] && path[i - 1] == walk[m + 1];
    }
  }

  // ---------------------------------------------------------------------------------------
  // Route between two cells

  /**
   * A route with the start cell index put in front when it is missing and the end cell
   * index put at the back when it is still missing.
   */
  function WithEndpoints(route: seq<int>, startIdx: int, endIdx: int): (r: seq<int>)
    ensures forall x :: x in r <==> x in route || x == startIdx || x == endIdx
    ensures startIdx !in route ==> r[0] == startIdx
    ensures endIdx !in route && endIdx != startIdx ==> r[|r| - 1] == endIdx
    ensures var k := if startIdx in route then 0 else 1;
      k + |route| <= |r| <= |route| + 2 && r[k..k + |route|] == route
    ensures NoRepeats(route) ==> NoRepeats(r)
  {
    var withStart := if startIdx in route then route else [startIdx] + route;
    if endIdx in withStart then withStart else withStart + [endIdx]
  }

  /**
   * `find_route`: the grid is built from the cells under the resolved options and the route
   * between the two cells is searched on it. The grid built is returned as a ghost, so that
   * the contract can speak of its walkable units.
   */
  method FindRoute(cells: seq<Cell>, startIdx: int, endIdx: int, types: TypeRules,
                   options: Option<Options>, diag: Option<bool>, allowEnterArea: Option<bool>,
                   h: (MPos, set<MPos>) -> real, fuel: nat)
    returns (r: Option<RouteResult>, ghost grid: PathfindingGrid)
    requires NonNegativeRules(types)
    requires forall p, G :: h(p, G) >= 0.0 && (h(p, G) == 0.0 <==> p in G)
    ensures grid.cells == cells && grid.types == types && grid.options == ResolveOptions(options, diag, allowEnterArea)
    ensures grid.Valid() && grid.Describes() && TightBounds(cells, Bounds(grid.minCol, grid.maxCol, grid.minRow, grid.maxRow))
    ensures LastByIdx(cells, startIdx).None? || LastByIdx(cells, endIdx).None? ==> r.None?
    ensures r.Some? ==> grid.BoothRoute(r.value, startIdx, endIdx)
  {
    var g := new PathfindingGrid(cells, types, ResolveOptions(options, diag, allowEnterArea));
    grid := g;
    g.CostsFromRules();
    r := g.RouteBetweenBooths(startIdx, endIdx, h, fuel);
  }
}
