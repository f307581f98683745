/**
 * The large areas a straight segment of the route passes through (core/navigation.py,
 * `detect_crossing_landmarks`), as functions of the grid.
 *
 * The segment is sampled at the same L + 1 points as the landmark search along it; every
 * exhibition hall, stage or lounge covering the unit of a sample is crossed. Each cell
 * index is reported once, for the first cell met with it, and the result is ordered by
 * landmark priority.
 */
module Crossing {
  import opened Grid
  import opened Geometry
  import opened Landmarks
  import opened UnitIndex
  import opened Scanning
  import opened Nearby

  /** The large areas of `list`, in list order. */
  function LargeAreasIn(list: seq<Cell>): (r: seq<Cell>)
    ensures forall c :: c in r <==> c in list && IsLargeArea(c.cellType)
  {
    if list == [] then []
    else
      var last := list[|list| - 1];
      assert forall c :: c in list <==> c in list[..|list| - 1] || c == last;
      LargeAreasIn(list[..|list| - 1]) + if IsLargeArea(last.cellType) then [last] else []
  }

  /** One more cell of the list taken into account. */
  lemma LargeAreasStep(list: seq<Cell>, k: int)
    requires 0 <= k < |list|
    ensures LargeAreasIn(list[..k + 1]) == LargeAreasIn(list[..k]) + if IsLargeArea(list[k].cellType) then [list[k]] else []
  {
    assert list[..k + 1][..k] == list[..k];
  }

  /** The large areas covering the unit of sample i of the segment from `start` to `end`. */
  function CrossedAt(cells: seq<Cell>, start: Pos, end: Pos, i: int): seq<Cell> {
    var L := MoveLength(start, end);
    if L > 0 then LargeAreasIn(CellsAt(cells, SamplePoint(start, end, i, L))) else []
  }

  function CrossedFn(cells: seq<Cell>, start: Pos, end: Pos): int -> seq<Cell> {
    i => CrossedAt(cells, start, end, i)
  }

  /** `CrossedAt`, with the cells of each unit read from a unit index instead. */
  function IndexedCrossedAt(index: map<Pos, seq<Cell>>, start: Pos, end: Pos, i: int): seq<Cell> {
    var L := MoveLength(start, end);
    if L > 0 then LargeAreasIn(Units(index, SamplePoint(start, end, i, L))) else []
  }

  function IndexedCrossedFn(index: map<Pos, seq<Cell>>, start: Pos, end: Pos): int -> seq<Cell> {
    i => IndexedCrossedAt(index, start, end, i)
  }

  /** A unit index that agrees with the grid sees the same large areas from every sample. */
  lemma IndexedCrossedAgree(index: map<Pos, seq<Cell>>, cells: seq<Cell>, start: Pos, end: Pos)
    requires forall pos :: Units(index, pos) == CellsAt(cells, pos)
    ensures Samples(IndexedCrossedFn(index, start, end), MoveLength(start, end) + 1) ==
            Samples(CrossedFn(cells, start, end), MoveLength(start, end) + 1)
  {
    var f := IndexedCrossedFn(index, start, end);
    var g := CrossedFn(cells, start, end);
    var L := MoveLength(start, end);
    forall i | 0 <= i < L + 1
      ensures f(i) == g(i)
    {
      if L > 0 {
        var p := SamplePoint(start, end, i, L);
        assert Units(index, p) == CellsAt(cells, p);
      }
    }
    SamplesAgree(f, g, L + 1);
  }

  function CellPriorityKey(c: Cell): real {
    GetLandmarkPriority(c) as real
  }

  /**
   * The crossed large areas: the first met per cell index, sample by sample and in file
   * order at each sample, sorted stably by priority; none for a segment without length.
   */
  function CrossingLandmarks(cells: seq<Cell>, start: Pos, end: Pos): seq<Cell> {
    var L := MoveLength(start, end);
    if L == 0 then []
    else SortBy(KeepFirst(Samples(CrossedFn(cells, start, end), L + 1), CellIdx, {}), CellPriorityKey)
  }

  /**
   * The crossed large areas have distinct cell indices and are in priority order; a
   * segment without length crosses none.
   */
  lemma CrossingDistinctSorted(cells: seq<Cell>, start: Pos, end: Pos)
    ensures DistinctBy(CrossingLandmarks(cells, start, end), CellIdx)
    ensures SortedBy(CrossingLandmarks(cells, start, end), CellPriorityKey)
    ensures MoveLength(start, end) == 0 ==> CrossingLandmarks(cells, start, end) == []
  {
    var L := MoveLength(start, end);
    if L > 0 {
      var kept := KeepFirst(Samples(CrossedFn(cells, start, end), L + 1), CellIdx, {});
      KeepFirstDistinct(Samples(CrossedFn(cells, start, end), L + 1), CellIdx, {});
      DistinctByPermutation(kept, SortBy(kept, CellPriorityKey), CellIdx);
    }
  }

  /** Every crossed large area covers the unit of one of the samples. */
  lemma CrossingSound(cells: seq<Cell>, start: Pos, end: Pos, c: Cell) returns (i: int)
    requires c in CrossingLandmarks(cells, start, end)
    ensures MoveLength(start, end) > 0 && 0 <= i <= MoveLength(start, end)
    ensures IsLargeArea(c.cellType)
    ensures c in CellsAt(cells, SamplePoint(start, end, i, MoveLength(start, end)))
  {
    var L := MoveLength(start, end);
    assert L > 0;
    i := SortedKeptSample(CrossedFn(cells, start, end), L + 1, CellIdx, CellPriorityKey, c);
    CrossedMember(cells, start, end, i, c);
  }

  /** What is kept of a scan, in any order, was found at one of the samples. */
  lemma SortedKeptSample<X>(g: int -> seq<X>, n: int, key: X -> int, priority: X -> real, x: X) returns (i: int)
    requires x in SortBy(KeepFirst(Samples(g, n), key, {}), priority)
    ensures 0 <= i < n && x in g(i)
  {
    var kept := KeepFirst(Samples(g, n), key, {});
    assert x in multiset(SortBy(kept, priority));
    KeepFirstSound(Samples(g, n), key, {}, x);
    SamplesMember(g, n, x);
    i :| 0 <= i < n && x in g(i);
  }

  lemma CrossedMember(cells: seq<Cell>, start: Pos, end: Pos, i: int, c: Cell)
    requires c in CrossedFn(cells, start, end)(i)
    ensures MoveLength(start, end) > 0 && IsLargeArea(c.cellType)
    ensures c in CellsAt(cells, SamplePoint(start, end, i, MoveLength(start, end)))
  {
  }

  /** Every large area covering the unit of a sample is crossed, through the first cell met with its index. */
  lemma CrossingComplete(cells: seq<Cell>, start: Pos, end: Pos, i: int, c: Cell) returns (y: Cell)
    requires MoveLength(start, end) > 0 && 0 <= i <= MoveLength(start, end)
    requires IsLargeArea(c.cellType) && c in CellsAt(cells, SamplePoint(start, end, i, MoveLength(start, end)))
    ensures y in CrossingLandmarks(cells, start, end) && y.idx == c.idx
  {
    var L := MoveLength(start, end);
    var g := CrossedFn(cells, start, end);
    assert c in g(i);
    SamplesMember(g, L + 1, c);
    var kept := KeepFirst(Samples(g, L + 1), CellIdx, {});
    y := KeepFirstComplete(Samples(g, L + 1), CellIdx, {}, c);
    assert y in multiset(kept);
  }

  /** `crossing` and `seenIdx` are what the large areas `visited` leave: the first per index, and every index met. */
  ghost predicate Collected(crossing: seq<Cell>, seenIdx: set<int>, visited: seq<Cell>) {
    crossing == KeepFirst(visited, CellIdx, {}) && seenIdx == Keys(visited, CellIdx)
  }

  /** The cell indices of one more element. */
  lemma KeysSnoc<T>(s: seq<T>, key: T -> int, x: T)
    ensures Keys(s + [x], key) == Keys(s, key) + {key(x)}
  {
    forall k | k in Keys(s + [x], key)
      ensures k in Keys(s, key) + {key(x)}
    {
      var i :| 0 <= i < |s + [x]| && (s + [x])[i] == (s + [x])[i] && key((s + [x])[i]) == k;
      if i < |s| {
        assert key(s[i]) == k;
      }
    }
    forall k | k in Keys(s, key)
      ensures k in Keys(s + [x], key)
    {
      var i :| 0 <= i < |s| && key(s[i]) == k;
      assert (s + [x])[i] == s[i];
    }
    assert (s + [x])[|s|] == x;
  }
}
