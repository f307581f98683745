/**
 * The route analyser of the narrator (core/navigation.py, `RouteAnalyzer`): the index from
 * grid units to the cells covering them, the landmark searches around a point and along a
 * segment, crossing detection, the per-side sequences and the splitting of a unit path
 * into orient, continue, turn and arrive steps.
 */
module RouteAnalysis {
  import opened Wrappers
  import opened Grid
  import opened Geometry
  import opened Landmarks
  import opened UnitIndex
  import opened Scanning
  import opened Nearby
  import opened Segment
  import opened Crossing
  import opened RouteSteps
  import Pathfinder

  // ---------------------------------------------------------------------------------------
  // The analyser

  class RouteAnalyzer {
    /** The cells of the grid, in file order. */
    const gridData: seq<Cell>
    const config: NavigationConfig
    /** For every grid unit some cell covers, the cells covering it, in file order. */
    const unitToCells: map<Pos, seq<Cell>>
    /** For every cell index, the last cell of the grid carrying it. */
    const idxToCell: map<int, Cell>

    /**
     * The indices describe the grid: each unit lists exactly the cells covering it, and each
     * cell index leads to the last cell with that index.
     */
    ghost predicate Valid() {
      && (forall pos :: Units(unitToCells, pos) == CellsAt(gridData, pos))
      && (forall idx :: IdxLookup(idxToCell, idx) == LastByIdx(gridData, idx))
    }

    /** Indexes every unit of every cell footprint; no configuration means the default one. */
    constructor (gridData: seq<Cell>, config: Option<NavigationConfig>)
      ensures this.gridData == gridData && this.config == config.GetOr(DefaultConfig)
      ensures Valid() && NoEmptyEntries(unitToCells)
    {
      var m: map<Pos, seq<Cell>> := map[];
      for i := 0 to |gridData|
        invariant NoEmptyEntries(m)
        invariant forall pos :: Units(m, pos) == CellsAt(gridData[..i], pos)
      {
        m := AddFootprint(m, gridData[i]);
        assert gridData[..i + 1][..i] == gridData[..i];
      }
      assert gridData[..|gridData|] == gridData;
      this.gridData := gridData;
      this.config := config.GetOr(DefaultConfig);
      this.idxToCell := IdxMap(gridData);
      this.unitToCells := m;
    }

    /** One offset of the search around `current`: the good landmarks covering that unit, with their side. */
    method LandmarksAtOffset(current: Pos, move: Pos, dx: int, dy: int) returns (found: seq<(Cell, Side)>)
      ensures found == IndexedNearbyAt(unitToCells, current, move, (dx, dy))
    {
      found := [];
      var pos := Offset(current, dx, dy);
      if !(dx == 0 && dy == 0) && pos in unitToCells {
        found := GoodLandmarksIn(unitToCells[pos], CalculateRelativeSide(move, (dx, dy)));
      }
    }

    /** The good landmarks among the cells of one unit, in file order, each with `side`. */
    static method GoodLandmarksIn(here: seq<Cell>, side: Side) returns (found: seq<(Cell, Side)>)
      ensures found == LandmarksIn(here, side)
    {
      found := [];
      for k := 0 to |here|
        invariant found == LandmarksIn(here[..k], side)
      {
        assert here[..k + 1][..k] == here[..k];
        if IsLandmark(here[k]) && IsGoodLandmark(here[k]) {
          found := found + [(here[k], side)];
        }
      }
      assert here[..|here|] == here;
    }

    /** Column dx of the search around `current`, from dy = -radius up to dy = radius. */
    method ScanColumn(current: Pos, move: Pos, radius: int, dx: int) returns (column: seq<(Cell, Side)>)
      ensures column == FullColumn(IndexedNearbyFn(unitToCells, current, move), radius, dx)
    {
      ghost var at := IndexedNearbyFn(unitToCells, current, move);
      column := [];
      if radius < 0 {
        return;
      }
      var dy := -radius;
      while dy < radius + 1
        invariant -radius <= dy <= radius + 1
        invariant column == Column(at, radius, dx, dy)
      {
        ColumnStep(at, radius, dx, dy);
        var found := LandmarksAtOffset(current, move, dx, dy);
        assert found == at((dx, dy));
        column := column + found;
        dy := dy + 1;
      }
    }

    /** The whole search around `current`, column by column. */
    method ScanSquare(current: Pos, move: Pos, radius: int) returns (landmarks: seq<(Cell, Side)>)
      ensures landmarks == SquareScan(IndexedNearbyFn(unitToCells, current, move), radius)
    {
      ghost var at := IndexedNearbyFn(unitToCells, current, move);
      landmarks := [];
      var dx := -radius;
      while dx < radius + 1
        invariant dx == -radius || -radius <= dx <= radius + 1
        invariant landmarks == Columns(at, radius, dx)
      {
        var column := ScanColumn(current, move, radius, dx);
        ColumnsStep(at, radius, dx);
        landmarks := landmarks + column;
        dx := dx + 1;
      }
      if radius < 0 {
        assert landmarks == [] == SquareScan(at, radius);
      } else {
        assert dx == radius + 1;
      }
    }

    /**
     * `find_nearby_landmarks`: searches the square of the given radius around `current`
     * (its centre excluded) for good landmarks, sides taken relative to the move towards
     * `next`, keeps the first find per cell index and sorts front-first, stably.
     */
    method FindNearbyLandmarks(current: Pos, next: Pos, searchRadius: int) returns (r: seq<(Cell, Side)>)
      requires Valid()
      ensures r == NearbyLandmarks(gridData, current, next, searchRadius)
    {
      var landmarks := ScanSquare(current, Sub(next, current), searchRadius);
      IndexedScanAgrees(unitToCells, gridData, current, Sub(next, current), searchRadius);
      var unique := DropRepeatedIdx(landmarks, PairIdx);
      r := SortBy(unique, SideRankKey);
    }

    /** Records one sighting: a new entry for a cell index not met before, then the sample and distance appended to it. */
    static method RecordSighting(order: seq<int>, entries: map<int, Appearance>, s: Sighting, side: Side)
      returns (order': seq<int>, entries': map<int, Appearance>)
      ensures Table(order', entries') == Record(Table(order, entries), s, side)
    {
      order', entries' := order, entries;
      var k := s.cell.idx;
      if k !in entries' {
        order' := order' + [k];
        entries' := entries'[k := Appearance(s.cell, side, [], [])];
      }
      var e := entries'[k];
      entries' := entries'[k := e.(positions := e.positions + [s.sample], distances := e.distances + [s.distance])];
      assert [] + [s.sample] == [s.sample] && [] + [s.distance] == [s.distance];
    }

    /** Records the sightings `found`, one after the other. */
    static method RecordSightings(order: seq<int>, entries: map<int, Appearance>, found: seq<Sighting>, q: SegmentSearch, isLong: bool)
      returns (order': seq<int>, entries': map<int, Appearance>)
      ensures Table(order', entries') == TabulateFrom(Table(order, entries), found, q, isLong)
    {
      ghost var t := Table(order, entries);
      order', entries' := order, entries;
      for k := 0 to |found|
        invariant Table(order', entries') == TabulateFrom(t, found[..k], q, isLong)
      {
        var s := found[k];
        TabulateSnoc(t, found[..k], q, isLong, s);
        assert found[..k + 1] == found[..k] + [s];
        var side := CalculateLandmarkSideHybrid(q.start, q.end, (s.cell.col, s.cell.row), isLong, false);
        order', entries' := RecordSighting(order', entries', s, side);
      }
      assert found[..|found|] == found;
    }

    /** Records what a sample sees in column dx of the search square, `at` giving what it sees at each offset. */
    static method RecordColumn(order: seq<int>, entries: map<int, Appearance>, at: ((int, int)) -> seq<Sighting>,
                               q: SegmentSearch, isLong: bool, dx: int)
      returns (order': seq<int>, entries': map<int, Appearance>)
      ensures Table(order', entries') == TabulateFrom(Table(order, entries), FullColumn(at, q.radius, dx), q, isLong)
    {
      ghost var t := Table(order, entries);
      order', entries' := order, entries;
      ghost var seen: seq<Sighting> := [];
      var dy := -q.radius;
      while dy < q.radius + 1
        invariant dy == -q.radius || -q.radius <= dy <= q.radius + 1
        invariant seen == Column(at, q.radius, dx, dy)
        invariant Table(order', entries') == TabulateFrom(t, seen, q, isLong)
      {
        ColumnStep(at, q.radius, dx, dy);
        var found := at((dx, dy));
        TabulateAppend(t, seen, found, q, isLong);
        order', entries' := RecordSightings(order', entries', found, q, isLong);
        seen := seen + found;
        dy := dy + 1;
      }
      if q.radius < 0 {
        assert seen == [] == FullColumn(at, q.radius, dx);
      } else {
        assert dy == q.radius + 1;
      }
    }

    /** Records what a sample sees in the whole search square, `at` giving what it sees at each offset. */
    static method RecordSample(order: seq<int>, entries: map<int, Appearance>, at: ((int, int)) -> seq<Sighting>,
                               q: SegmentSearch, isLong: bool)
      returns (order': seq<int>, entries': map<int, Appearance>)
      ensures Table(order', entries') == TabulateFrom(Table(order, entries), SquareScan(at, q.radius), q, isLong)
    {
      ghost var t := Table(order, entries);
      order', entries' := order, entries;
      ghost var seen: seq<Sighting> := [];
      var dx := -q.radius;
      while dx < q.radius + 1
        invariant dx == -q.radius || -q.radius <= dx <= q.radius + 1
        invariant seen == Columns(at, q.radius, dx)
        invariant Table(order', entries') == TabulateFrom(t, seen, q, isLong)
      {
        ColumnsStep(at, q.radius, dx);
        TabulateAppend(t, seen, FullColumn(at, q.radius, dx), q, isLong);
        order', entries' := RecordColumn(order', entries', at, q, isLong, dx);
        seen := seen + FullColumn(at, q.radius, dx);
        dx := dx + 1;
      }
      if q.radius < 0 {
        assert seen == [] == SquareScan(at, q.radius);
      } else {
        assert dx == q.radius + 1;
      }
    }

    /**
     * `find_intermediate_landmarks_with_coverage`: samples the segment from `start` to `end`,
     * records every qualifying landmark seen around each sample against its cell index, then
     * reports, per index in the order first met, the samples seen at most `distance_filter`
     * away and their coverage of the segment.
     */
    method FindIntermediateLandmarksWithCoverage(start: Pos, end: Pos, searchRadius: Option<int>, excludeCellIds: Option<set<int>>)
      returns (r: seq<LandmarkWithCoverage>)
      requires Valid()
      ensures r == IntermediateLandmarks(gridData, SegmentSearch(start, end, searchRadius.GetOr(config.searchRadius), excludeCellIds), config)
    {
      var radius := searchRadius.GetOr(config.searchRadius);
      var q := SegmentSearch(start, end, radius, excludeCellIds);
      var L := MoveLength(start, end);
      if L == 0 {
        return [];
      }
      var isLong := config.useHybridMethod && L >= config.longSegmentThreshold;
      var order: seq<int> := [];
      var entries: map<int, Appearance> := map[];
      ghost var hits: seq<Sighting> := [];
      ghost var g := SampleSightingsFn(gridData, q);
      for i := 0 to L + 1
        invariant hits == Samples(g, i)
        invariant Table(order, entries) == Tabulate(hits, q, isLong)
      {
        var point := SamplePoint(start, end, i, L);
        assert point == SearchPoint(q, i);
        order, entries := RecordSample(order, entries, IndexedSightingsFn(unitToCells, point, i, q.exclude), q, isLong);
        IndexedSightingsAgree(unitToCells, gridData, point, i, q.exclude, radius);
        SamplesStep(g, i);
        TabulateAppend(EmptyTable, hits, g(i), q, isLong);
        hits := hits + g(i);
      }
      r := ReportAppearances(Table(order, entries), L, config.distanceFilter);
    }

    /**
     * `generate_three_sequences`: the landmarks along the segment from `start` to `end`
     * with the configured search radius, split by side, each side cut to the configured
     * number of landmarks; crossing detection is not wired in, so the crossing sequence
     * is always empty.
     */
    method GenerateThreeSequences(start: Pos, end: Pos, excludeCellIds: Option<set<int>>) returns (r: Sequences)
      requires Valid()
      ensures var all := IntermediateLandmarks(gridData, SegmentSearch(start, end, config.searchRadius, excludeCellIds), config);
        AllSeen(all) && r == ThreeSequences(all, config.maxLandmarksPerSide)
    {
      var all := FindIntermediateLandmarksWithCoverage(start, end, None, excludeCellIds);
      IntermediateAllSeen(gridData, SegmentSearch(start, end, config.searchRadius, excludeCellIds), config);
      var crossing: seq<LandmarkWithCoverage> := [];
      var left := OnSide(all, Left);
      var right := OnSide(all, Right);
      var front := OnSide(all, Front);
      var maxLandmarks := config.maxLandmarksPerSide;
      r := Sequences(ProcessLandmarkSequence(crossing, maxLandmarks), ProcessLandmarkSequence(left, maxLandmarks),
                     ProcessLandmarkSequence(right, maxLandmarks), ProcessLandmarkSequence(front, maxLandmarks));
    }

    /** A large area appended to `crossing` when its index is new, `crossing` and `seenIdx` being what the large areas `visited` before leave. */
    static method AddIfUnseen(crossing: seq<Cell>, seenIdx: set<int>, ghost visited: seq<Cell>, cell: Cell)
      returns (crossing': seq<Cell>, seenIdx': set<int>)
      requires Collected(crossing, seenIdx, visited)
      ensures Collected(crossing', seenIdx', visited + [cell])
    {
      KeepFirstSnoc(visited, CellIdx, {}, cell);
      KeysSnoc(visited, CellIdx, cell);
      assert {} + Keys(visited, CellIdx) == seenIdx;
      crossing', seenIdx' := crossing, seenIdx;
      if cell.idx !in seenIdx {
        crossing' := crossing + [cell];
        seenIdx' := seenIdx + {cell.idx};
      } else {
        assert crossing + [] == crossing;
      }
    }

    /**
     * The large areas of `here` whose index is new, appended to `crossing` in list order;
     * `crossing` and `seenIdx` being what the large areas `visited` before leave.
     */
    static method AddCrossed(crossing: seq<Cell>, seenIdx: set<int>, ghost visited: seq<Cell>, here: seq<Cell>)
      returns (crossing': seq<Cell>, seenIdx': set<int>)
      requires Collected(crossing, seenIdx, visited)
      ensures Collected(crossing', seenIdx', visited + LargeAreasIn(here))
    {
      crossing', seenIdx' := crossing, seenIdx;
      ghost var all := visited;
      assert LargeAreasIn(here[..0]) == [];
      assert visited + [] == visited;
      for k := 0 to |here|
        invariant all == visited + LargeAreasIn(here[..k])
        invariant Collected(crossing', seenIdx', all)
      {
        LargeAreasStep(here, k);
        var cell := here[k];
        if IsLargeArea(cell.cellType) {
          crossing', seenIdx' := AddIfUnseen(crossing', seenIdx', all, cell);
          all := all + [cell];
        } else {
          assert all + [] == all;
        }
      }
      assert here[..|here|] == here;
    }

    /** The loop of `detect_crossing_landmarks`: the large areas met sample by sample, the first per cell index. */
    static method CollectCrossed(index: map<Pos, seq<Cell>>, start: Pos, end: Pos, L: int) returns (crossing: seq<Cell>)
      requires L == MoveLength(start, end) > 0
      ensures crossing == KeepFirst(Samples(IndexedCrossedFn(index, start, end), L + 1), CellIdx, {})
    {
      crossing := [];
      var seenIdx: set<int> := {};
      ghost var visited: seq<Cell> := [];
      ghost var g := IndexedCrossedFn(index, start, end);
      assert Keys(visited, CellIdx) == {};
      for i := 0 to L + 1
        invariant visited == Samples(g, i)
        invariant Collected(crossing, seenIdx, visited)
      {
        var pos := SamplePoint(start, end, i, L);
        if pos in index {
          crossing, seenIdx := AddCrossed(crossing, seenIdx, visited, index[pos]);
        } else {
          assert visited + g(i) == visited;
        }
        SamplesStep(g, i);
        visited := visited + g(i);
      }
    }

    /**
     * `detect_crossing_landmarks`: the exhibition halls, stages and lounges covering the
     * unit of a sample of the segment from `start` to `end`, each index once, by priority.
     */
    method DetectCrossingLandmarks(start: Pos, end: Pos) returns (r: seq<Cell>)
      requires Valid()
      ensures r == CrossingLandmarks(gridData, start, end)
    {
      var L := MoveLength(start, end);
      if L == 0 {
        return [];
      }
      var crossing := CollectCrossed(unitToCells, start, end, L);
      IndexedCrossedAgree(unitToCells, gridData, start, end);
      r := SortBy(crossing, CellPriorityKey);
    }

    /** The orientation step, naming the landmark picked from `startLandmarks`, when the first turn is far enough. */
    static method OrientStep(path: seq<Pos>, ghost near: Search, startLandmarks: seq<(Cell, Side)>) returns (steps: seq<NavigationStep>)
      requires |path| >= 2 && TurnPoints(path) != [] && TurnPoints(path)[0].0 > 3
      requires near(path[0], path[1], TurnSearchRadius) == startLandmarks
      ensures steps == OrientSteps(path, near)
    {
      steps := [];
      var startLandmark := PickStartLandmark(startLandmarks);
      if startLandmark.Some? {
        steps := [NavigationStep(1, Orient, 0, Some(InfoOf(startLandmark.value)), None)];
      }
    }

    /** The leg up to turn point `tp`, when there is one, then the turn, naming the landmark picked from `landmarks`. */
    static method AppendTurn(path: seq<Pos>, ghost near: Search, p: Progress, tp: (int, Turn), landmarks: seq<(Cell, Side)>)
      returns (p': Progress)
      requires 0 <= p.currentPos < |path| && 1 <= tp.0 < |path|
      requires near(path[tp.0 - 1], path[tp.0], TurnSearchRadius) == landmarks
      ensures p' == TurnInstructions(path, TurnLandmarkFn(path, near), p, tp)
    {
      var turnPos, turnDir := tp.0, tp.1;
      var steps, stepId := p.steps, p.nextId;
      var distance := turnPos - p.currentPos;
      if distance > 0 {
        var direction := GetDirectionName(path[p.currentPos], path[turnPos]);
        steps := steps + [NavigationStep(stepId, Continue, distance, None, Some(direction))];
        stepId := stepId + 1;
      } else {
        assert p.steps + [] == p.steps;
      }
      var best := PickTurnLandmark(landmarks, turnDir);
      var landmarkInfo := if best.Some? then Some(InfoOf(best.value)) else None;
      assert TurnLandmarkFn(path, near)(tp) == landmarkInfo;
      steps := steps + [NavigationStep(stepId, TurnTo(turnDir), 0, landmarkInfo, None)];
      p' := Progress(steps, stepId + 1, turnPos);
    }

    /** The leg up to turn point `tp`, when there is one, then the turn with the landmark the search around it picks. */
    method AddTurn(path: seq<Pos>, p: Progress, tp: (int, Turn)) returns (p': Progress)
      requires Valid()
      requires 0 <= p.currentPos < |path| && 1 <= tp.0 < |path|
      ensures p' == TurnInstructions(path, TurnLandmarkFn(path, NearbySearch(gridData)), p, tp)
    {
      var landmarks := FindNearbyLandmarks(path[tp.0 - 1], path[tp.0], TurnSearchRadius);
      p' := AppendTurn(path, NearbySearch(gridData), p, tp, landmarks);
    }

    /** The side on which the search around the end meets the destination `target`, if it does. */
    static method FindArrivalSide(targetLandmarks: seq<(Cell, Side)>, target: int) returns (side: Option<Side>)
      ensures side.None? <==> FirstWithIdx(targetLandmarks, target).None?
      ensures side.Some? ==> side.value == FirstWithIdx(targetLandmarks, target).value.1
    {
      var j := 0;
      while j < |targetLandmarks|
        invariant 0 <= j <= |targetLandmarks|
        invariant FirstWithIdx(targetLandmarks, target) == FirstWithIdx(targetLandmarks[j..], target)
      {
        if targetLandmarks[j].0.idx == target {
          return Some(targetLandmarks[j].1);
        }
        assert targetLandmarks[j..][1..] == targetLandmarks[j + 1..];
        j := j + 1;
      }
      return None;
    }

    /**
     * The landmark of the arrival: the destination cell, on the side the search of radius 1
     * meets it, else in front. As in the source, a destination index of 0 is falsy and
     * leaves the arrival without a landmark.
     */
    method ArrivalLandmark(path: seq<Pos>, route: Pathfinder.RouteResult) returns (arrival: Option<LandmarkInfo>)
      requires Valid() && |path| >= 2
      ensures arrival == ArrivalFor(gridData, path, TargetOfAsWritten(route))
    {
      arrival := None;
      var targetIdx := if route.route != [] then Some(route.route[|route.route| - 1]) else None;
      if targetIdx.Some? && targetIdx.value != 0 && targetIdx.value in idxToCell {
        var targetCell := idxToCell[targetIdx.value];
        assert IdxLookup(idxToCell, targetIdx.value) == LastByIdx(gridData, targetIdx.value);
        var targetLandmarks := FindNearbyLandmarks(path[|path| - 2], path[|path| - 1], 1);
        var side := FindArrivalSide(targetLandmarks, targetIdx.value);
        arrival := Some(LandmarkInfo(targetCell.idx, targetCell.name, side.GetOr(Front)));
      } else if targetIdx.Some? && targetIdx.value != 0 {
        assert IdxLookup(idxToCell, targetIdx.value) == LastByIdx(gridData, targetIdx.value);
      }
    }

    /** The interior points of `path` where it turns left or right, with the turn, in path order. */
    static method FindTurnPoints(path: seq<Pos>) returns (turnPoints: seq<(int, Turn)>)
      requires |path| >= 2
      ensures turnPoints == TurnPoints(path)
    {
      turnPoints := [];
      for i := 1 to |path| - 1
        invariant turnPoints == TurnPointsBelow(path, i)
      {
        var turnDir := DetectTurnDirection(path[i - 1], path[i], path[i + 1]);
        if turnDir != Straight {
          turnPoints := turnPoints + [(i, turnDir)];
        }
      }
    }

    /** A leg and a turn for every turn point, in order, after the steps of `start`. */
    method AddTurns(path: seq<Pos>, turnPoints: seq<(int, Turn)>, start: Progress) returns (p: Progress)
      requires Valid() && 0 <= start.currentPos < |path|
      requires forall j | 0 <= j < |turnPoints| :: 1 <= turnPoints[j].0 < |path|
      ensures p == TurnsThrough(path, TurnLandmarkFn(path, NearbySearch(gridData)), turnPoints, start, |turnPoints|)
    {
      p := start;
      for k := 0 to |turnPoints|
        invariant p == TurnsThrough(path, TurnLandmarkFn(path, NearbySearch(gridData)), turnPoints, start, k)
      {
        p := AddTurn(path, p, turnPoints[k]);
      }
    }

    /** The last leg, up to the end of the path, when there is any of it left. */
    static method AddFinalLeg(path: seq<Pos>, p: Progress) returns (p': Progress)
      requires |path| >= 2 && 0 <= p.currentPos < |path|
      ensures p' == FinalLeg(path, p)
    {
      p' := p;
      var finalDistance := |path| - 1 - p.currentPos;
      if finalDistance > 0 {
        var direction := GetDirectionName(path[p.currentPos], path[|path| - 1]);
        p' := Progress(p.steps + [NavigationStep(p.nextId, Continue, finalDistance, None, Some(direction))], p.nextId + 1, |path| - 1);
      }
    }

    /** The last leg after the turns, then the arrival naming `arrival`. */
    static method FinishSteps(path: seq<Pos>, ghost near: Search, orient: seq<NavigationStep>, afterTurns: Progress,
                              arrival: Option<LandmarkInfo>) returns (steps: seq<NavigationStep>)
      requires |path| >= 2 && orient == OrientSteps(path, near)
      requires afterTurns == TurnsThrough(path, TurnLandmarkFn(path, near), TurnPoints(path), Progress(orient, |orient| + 1, 0), |TurnPoints(path)|)
      ensures steps == StepsWith(path, near, arrival)
    {
      var p := AddFinalLeg(path, afterTurns);
      steps := p.steps + [NavigationStep(p.nextId, Arrive, 0, arrival, None)];
    }

    /** The orientation step, when the first turn is more than three units in and a landmark is in sight. */
    method StartOrientation(path: seq<Pos>, turnPoints: seq<(int, Turn)>) returns (orient: seq<NavigationStep>)
      requires Valid() && |path| >= 2 && turnPoints == TurnPoints(path)
      ensures orient == OrientSteps(path, NearbySearch(gridData))
    {
      orient := [];
      if turnPoints != [] && turnPoints[0].0 > 3 {
        var startLandmarks := FindNearbyLandmarks(path[0], path[1], TurnSearchRadius);
        orient := OrientStep(path, NearbySearch(gridData), startLandmarks);
      } else {
        OrientationOnLongFirstLeg(path, NearbySearch(gridData));
      }
    }

    /**
     * `analyze_route`: the turn points of the unit path, an orientation step when the first
     * turn is more than three units in, a continue step and a turn per turn point, the last
     * leg and the arrival.
     */
    method AnalyzeRoute(route: Pathfinder.RouteResult) returns (steps: seq<NavigationStep>)
      requires Valid()
      ensures steps == NavigationSteps(gridData, route)
    {
      var path := route.unitPath;
      if |path| < 2 {
        return [NavigationStep(1, Arrive, 0, None, None)];
      }
      var turnPoints := FindTurnPoints(path);
      var orient := StartOrientation(path, turnPoints);
      TurnPointsTurn(path);
      var p := AddTurns(path, turnPoints, Progress(orient, |orient| + 1, 0));
      var arrival := ArrivalLandmark(path, route);
      steps := FinishSteps(path, NearbySearch(gridData), orient, p, arrival);
    }
  }
}
