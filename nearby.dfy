/**
 * The search for landmarks around a point of the route (core/navigation.py,
 * `find_nearby_landmarks`), as functions of the grid.
 */
module Nearby {
  import opened Grid
  import opened Geometry
  import opened Landmarks
  import opened UnitIndex
  import opened Scanning

  /** The cell index of a (cell, side) pair. */
  function PairIdx(p: (Cell, Side)): int {
    p.0.idx
  }

  function CellIdx(c: Cell): int {
    c.idx
  }

  // ---------------------------------------------------------------------------------------
  // Landmarks around a point

  /** The good landmarks of `list`, each paired with `side`, in list order. */
  function LandmarksIn(list: seq<Cell>, side: Side): (r: seq<(Cell, Side)>)
    ensures forall p :: p in r <==> p.0 in list && IsLandmark(p.0) && IsGoodLandmark(p.0) && p.1 == side
  {
    if list == [] then []
    else
      var last := list[|list| - 1];
      assert forall c :: c in list <==> c in list[..|list| - 1] || c == last;
      LandmarksIn(list[..|list| - 1], side) +
        if IsLandmark(last) && IsGoodLandmark(last) then [(last, side)] else []
  }

  /** What the search around `current` collects at offset (dx, dy): nothing at the centre itself. */
  function NearbyAt(cells: seq<Cell>, current: Pos, move: Pos, d: (int, int)): seq<(Cell, Side)> {
    if d.0 == 0 && d.1 == 0 then []
    else LandmarksIn(CellsAt(cells, Offset(current, d.0, d.1)), CalculateRelativeSide(move, d))
  }

  /** `NearbyAt`, with the cells of each unit read from a unit index instead. */
  function IndexedNearbyAt(index: map<Pos, seq<Cell>>, current: Pos, move: Pos, d: (int, int)): seq<(Cell, Side)> {
    if d.0 == 0 && d.1 == 0 then []
    else LandmarksIn(Units(index, Offset(current, d.0, d.1)), CalculateRelativeSide(move, d))
  }

  function IndexedNearbyFn(index: map<Pos, seq<Cell>>, current: Pos, move: Pos): ((int, int)) -> seq<(Cell, Side)> {
    (d: (int, int)) => IndexedNearbyAt(index, current, move, d)
  }

  /** A unit index that agrees with the grid gives the same search. */
  lemma IndexedScanAgrees(index: map<Pos, seq<Cell>>, cells: seq<Cell>, current: Pos, move: Pos, radius: int)
    requires forall pos :: Units(index, pos) == CellsAt(cells, pos)
    ensures SquareScan(IndexedNearbyFn(index, current, move), radius) == NearbyScan(cells, current, move, radius)
  {
    var f := IndexedNearbyFn(index, current, move);
    var g := NearbyFn(cells, current, move);
    forall d
      ensures f(d) == g(d)
    {
      assert Units(index, Offset(current, d.0, d.1)) == CellsAt(cells, Offset(current, d.0, d.1));
    }
    ColumnsAgree(f, g, radius, radius + 1);
  }

  /** The rank `find_nearby_landmarks` sorts by: front, then left and right, then behind, then the rest. */
  function SideRank(s: Side): int {
    match s
    case Front => 0
    case Left => 1
    case Right => 1
    case Behind => 2
    case Unknown => 3
  }

  function SideRankKey(p: (Cell, Side)): real {
    SideRank(p.1) as real
  }

  /** `NearbyAt` as a function of the offset alone. */
  function NearbyFn(cells: seq<Cell>, current: Pos, move: Pos): ((int, int)) -> seq<(Cell, Side)> {
    (d: (int, int)) => NearbyAt(cells, current, move, d)
  }

  /** The search around `current` for a move along `move`, offset by offset. */
  function NearbyScan(cells: seq<Cell>, current: Pos, move: Pos, radius: int): seq<(Cell, Side)> {
    SquareScan(NearbyFn(cells, current, move), radius)
  }

  /**
   * The landmarks around `current` when moving towards `next`: every good landmark covering
   * a unit at most `radius` away in both coordinates (the centre excluded), with its side as
   * seen from the first unit where the search met it, once per cell index, front first.
   */
  function NearbyLandmarks(cells: seq<Cell>, current: Pos, next: Pos, radius: int): seq<(Cell, Side)> {
    SortBy(KeepFirst(NearbyScan(cells, current, Sub(next, current), radius), PairIdx, {}), SideRankKey)
  }

  /** The landmarks around a point have distinct cell indices and come front-first. */
  lemma NearbyDistinctSorted(cells: seq<Cell>, current: Pos, next: Pos, radius: int)
    ensures DistinctBy(NearbyLandmarks(cells, current, next, radius), PairIdx)
    ensures SortedBy(NearbyLandmarks(cells, current, next, radius), SideRankKey)
  {
    var scan := NearbyScan(cells, current, Sub(next, current), radius);
    KeepFirstDistinct(scan, PairIdx, {});
    DistinctByPermutation(KeepFirst(scan, PairIdx, {}), SortBy(KeepFirst(scan, PairIdx, {}), SideRankKey), PairIdx);
  }

  /**
   * Every landmark found around a point is a good landmark covering a unit of the search
   * square other than its centre, paired with its side as seen at that offset.
   */
  lemma NearbySound(cells: seq<Cell>, current: Pos, next: Pos, radius: int, p: (Cell, Side)) returns (dx: int, dy: int)
    requires p in NearbyLandmarks(cells, current, next, radius)
    ensures -radius <= dx <= radius && -radius <= dy <= radius && !(dx == 0 && dy == 0)
    ensures p.0 in CellsAt(cells, Offset(current, dx, dy)) && IsLandmark(p.0) && IsGoodLandmark(p.0)
    ensures p.1 == CalculateRelativeSide(Sub(next, current), (dx, dy))
  {
    var at := NearbyFn(cells, current, Sub(next, current));
    NearbyScanned(cells, current, next, radius, p);
    dx, dy := ScanHit(at, radius, p);
    NearbyAtMember(cells, current, Sub(next, current), (dx, dy), p);
  }

  lemma NearbyScanned(cells: seq<Cell>, current: Pos, next: Pos, radius: int, p: (Cell, Side))
    requires p in NearbyLandmarks(cells, current, next, radius)
    ensures p in NearbyScan(cells, current, Sub(next, current), radius)
  {
    var scan := NearbyScan(cells, current, Sub(next, current), radius);
    var unique := KeepFirst(scan, PairIdx, {});
    assert p in multiset(SortBy(unique, SideRankKey));
    KeepFirstSound(scan, PairIdx, {}, p);
  }

  lemma NearbyAtMember(cells: seq<Cell>, current: Pos, move: Pos, d: (int, int), p: (Cell, Side))
    requires p in NearbyFn(cells, current, move)(d)
    ensures !(d.0 == 0 && d.1 == 0)
    ensures p.0 in CellsAt(cells, Offset(current, d.0, d.1)) && IsLandmark(p.0) && IsGoodLandmark(p.0)
    ensures p.1 == CalculateRelativeSide(move, d)
  {
  }

  /** Every good landmark covering a unit of the search square other than its centre is found. */
  lemma NearbyComplete(cells: seq<Cell>, current: Pos, next: Pos, radius: int, dx: int, dy: int, c: Cell)
    returns (p: (Cell, Side))
    requires -radius <= dx <= radius && -radius <= dy <= radius && !(dx == 0 && dy == 0)
    requires c in CellsAt(cells, Offset(current, dx, dy)) && IsLandmark(c) && IsGoodLandmark(c)
    ensures p in NearbyLandmarks(cells, current, next, radius) && p.0.idx == c.idx
  {
    var at := NearbyFn(cells, current, Sub(next, current));
    var scan := SquareScan(at, radius);
    var unique := KeepFirst(scan, PairIdx, {});
    var hit := (c, CalculateRelativeSide(Sub(next, current), (dx, dy)));
    assert hit in at((dx, dy));
    HitScanned(at, radius, dx, dy, hit);
    p := KeepFirstComplete(scan, PairIdx, {}, hit);
    assert p in multiset(unique);
  }
}
