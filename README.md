# Booth navigation on an exhibition floor plan, modelled in Dafny

The system turns an exhibition floor plan into walking directions between booths. Its core
does three things:

- **Grid.** The floor plan is a list of rectangular cells: booths, walkways, halls, stages
  and lounges. Each cell has a pixel box, a footprint in grid units, a type and an optional
  name. Grid units convert to pixels and back.
- **Pathfinder.** The pathfinder lays the cells onto walkable, cost and cell-index matrices.
  It finds the walkable units around the start and end cells. It joins them by
  multi-source, multi-target A*, with optional diagonal moves, no corner cutting and an
  optional turn penalty. It reports the route as a list of cell indices, a unit path, a
  move count, a geometric length and a weighted cost.
- **Narrator.** The route analyser cuts the unit path at its turn points and names
  landmarks around the start and each turn, with their side (front, left, right or
  behind). Along each straight leg it samples the segment to find the landmarks beside it
  and how much of the leg they cover, and the large areas it crosses. The rule formatter
  turns the resulting steps into Chinese sentences, worded by leg length: a booth count,
  one landmark, or a sequence of landmarks.

The modules follow the source files:

| Module (file) | Models |
|---|---|
| `Grid` (`grid.dfy`) | `core/grid.py` |
| `Pathfinder` (`pathfinder.dfy`) | `core/pathfinder.py`: the `PathfindingGrid` class and `find_route` |
| `RouteAnalysis` (`analyzer.dfy`) | `RouteAnalyzer` of `core/navigation.py` |
| `RuleFormatting` (`formatter.dfy`) | `RuleFormatter` of `core/navigation.py` |
| `RouteSteps` (`steps.dfy`) | the specification functions of the analyser's step building |
| `Landmarks` (`landmarks.dfy`) | the specification functions of its landmark ranking and selection |
| `Geometry` (`geometry.dfy`) | the specification functions of its geometry |
| `Nearby` (`nearby.dfy`) | the specification functions of its nearby-landmark search |
| `Segment` (`segment.dfy`) | the specification functions of its segment search |
| `Crossing` (`crossing.dfy`) | the specification functions of its crossing detection |
| `UnitIndex` (`units.dfy`) | its unit index |
| `Scanning` (`scanning.dfy`) | generic scan, first-per-key and sampling lemmas |
| `Wrappers` (`wrappers.dfy`) | `Option` |

How the source's code is carried over:

- **Classes.** `PathfindingGrid` and `RouteAnalyzer` are Dafny classes. The grid's matrices
  are `array2`s, filled in place by `BuildMatrices`. Every loop of the source is a `method`
  with a `while` or `for` loop, proved against a specification function; the properties
  are proved about that function.
- **Python semantics.** `round` rounds half to even (`RoundHalfEven`). `int()` on a float
  truncates toward zero (`TruncDiv`). A dict comprehension keyed by `idx` keeps the last
  cell with each index (`LastByIdx`), where `get_by_idx` returns the first (`GetByIdx`).
  `None` inside an f-string reads "None" (`NameText`). `str.strip` and `str.isdigit` follow
  the Unicode tables of Python 3.12 (Unicode 15.0): ideographic spaces are blank and
  full-width digits are digits (`IsWhitespace`, `IsDigitChar`).
- **Reals.** Costs and coverage ratios are `real`. The square root of two is the decimal
  rendering of the double closest to it. The cosine thresholds of the side classifiers are
  compared exactly, without square roots (`WithinCone`, proved equivalent to the
  normalised dot product by `WithinConeIsNormalisedDot`).
- **Heuristic and fuel.** The heuristic of A* is a parameter `h`: non-negative, and zero
  exactly on the goal set. The main loop takes a `fuel` bound, because with real costs and
  turn penalties its termination is not provable.

Where the behaviour description of the system and the code disagree, the model follows
the code:

- **No crossing sequence.** `generate_three_sequences` never fills the crossing sequence.
  The crossing detection is left as a TODO at core/navigation.py:388-389, so that
  sequence is always empty.
- **Combined sequence.** It walks to the front landmark with the largest priority number,
  the least important one (see Findings).
- **Both findings.** The analyser and the formatter follow the code as written: the
  combined sequence takes the `max` priority number and a destination of index 0 goes
  unnamed. The corrected definitions are proved beside them and used nowhere else.
- **Coverage above 1.** The coverage ratio divides the number of distinct samples (up to
  L + 1) by L. It can therefore exceed 1 (`IntermediateCoverageBound`).

## Model

| member | source | states |
|---|---|---|
| Grid.NewCell | core/grid.py:8-23 | a cell built from the required fields has a 1 x 1 footprint, type "unknown", and no name or booth id |
| Grid.GetByIdx | core/grid.py:49-54 | None exactly when no cell carries the index; otherwise the first cell in list order that carries it |
| Grid.LastByIdx | core/pathfinder.py:63-64 | the cell an idx-keyed dict comprehension holds: None exactly when no cell carries the index, otherwise the last one that does |
| Grid.IdxMap | core/navigation.py:146-147 | the dict built from the cells answers every lookup as `LastByIdx` does |
| Grid.UniqueIdxLookupsAgree | core/grid.py:49-54 | with unique cell indices, `get_by_idx` and the dict lookup return the same cell |
| Grid.RoundHalfEven | core/grid.py:105-109 | Python's `round` of p / q: error at most half of q, and an exact half goes to an even result |
| Grid.PixelToGrid | core/grid.py:105-109 | the unit returned is the nearest on each axis (within half a unit) |
| Grid.GridToPixel | core/grid.py:98-103 | the pixel corner of a unit: origin plus units times unit size; `PixelGridRoundTrip` proves `pixel_to_grid` inverts it |
| Grid.PixelGridRoundTrip | core/grid.py:98-109 | `pixel_to_grid(grid_to_pixel(col, row)) == (col, row)` for any metadata with non-zero unit sizes |
| Geometry.TurnReversed | core/navigation.py:533-557 | walking the three points backwards detects the opposite turn |
| Geometry.DetectTurnDirection | core/navigation.py:533-557 | right, left or straight by the sign of the cross product of the two moves (rows grow downwards); `TurnReversed`, `CollinearIsStraight`, `TurnExamples` and `RightTurnIsOnTheRight` state its properties |
| Geometry.TurnExamples | core/navigation.py:533-557 | a straight run is straight; a quarter turn clockwise (rows downwards) is right, the other way left |
| Geometry.CollinearIsStraight | core/navigation.py:533-557 | three points in order on one line never make a turn |
| Geometry.DirectionReversed | core/navigation.py:559-567 | the move back is named by the opposite compass point |
| Geometry.GetDirectionName | core/navigation.py:559-567 | east or west when the column change dominates, else south or north by the row change; `DirectionReversed` and `DirectionExamples` state its properties |
| Geometry.DirectionExamples | core/navigation.py:559-567 | the four unit moves are east, west, south and north |
| Geometry.WithinConeIsNormalisedDot | core/navigation.py:618-695 | the square-free cone test holds exactly when the normalised dot product reaches the threshold |
| Geometry.CalculateRelativeSide | core/navigation.py:670-695 | the point classifier: front within 45 degrees of the move, else left or right by the cross product, else behind; unknown without a move (`MirrorExchangesSides`, `SideExamples`) |
| Geometry.CalculateRelativeSideSegmentBased | core/navigation.py:618-652 | the segment classifier: front within 15 degrees of the segment seen from its start, else as the point classifier (`SegmentFrontIsPointFront`, `ClassifiersAgreeOffFront`) |
| Geometry.CalculateLandmarkSideHybrid | core/navigation.py:654-668 | the point classifier for turns and short segments, the segment classifier for long straight ones |
| Geometry.SegmentFrontIsPointFront | core/navigation.py:618-695 | a landmark in front by the 15-degree segment rule is in front by the 45-degree point rule |
| Geometry.ClassifiersAgreeOffFront | core/navigation.py:618-695 | outside the front cone both classifiers give the same side |
| Geometry.MirrorExchangesSides | core/navigation.py:670-695 | reflecting both directions exchanges left and right and keeps the other sides |
| Geometry.SideExamples | core/navigation.py:670-695 | moving east: below is right, above is left, ahead is front, back is behind; no move is unknown |
| Geometry.RightTurnIsOnTheRight | core/navigation.py:533-557 | after a right turn, the next move lies on the right of or in front of the previous one |
| Geometry.TruncDiv | core/navigation.py:238-244 | `int()` of a quotient: truncation toward zero, with the sign of the dividend |
| Geometry.SampleEndpoints | core/navigation.py:238-244 | the first sample of a segment is its start and the last is its end |
| Geometry.SampleInBox | core/navigation.py:238-244 | every sample lies in the bounding box of the segment |
| UnitIndex.CellsAt | core/navigation.py:150-158 | the cells listed for a unit are exactly the cells whose footprint covers it |
| UnitIndex.AddFootprint | core/navigation.py:150-158 | registering a cell appends it to the list of exactly the units of its footprint; no entry is ever empty |
| Scanning.KeepFirstSound | core/navigation.py:604-610 | what is kept per cell index comes from the input and has an unseen index |
| Scanning.KeepFirstDistinct | core/navigation.py:604-610 | what is kept has distinct cell indices |
| Scanning.KeepFirstComplete | core/navigation.py:604-610 | every unseen index of the input is kept, through the first element carrying it |
| Scanning.DropRepeatedIdx | core/navigation.py:604-610 | the loop keeps the first element per cell index, in order |
| Scanning.KeepFirstSnoc | core/navigation.py:604-610 | one more element is kept exactly when its index is new |
| Scanning.SamplesMember | core/navigation.py:238-286 | something is collected by a scan exactly when one of its samples finds it |
| Scanning.ScanHit | core/navigation.py:589-602 | whatever a square scan collects is found at some offset of the square |
| Scanning.HitScanned | core/navigation.py:589-602 | whatever is found at an offset of the square is collected |
| Scanning.DistinctByPermutation | core/navigation.py:612-614 | sorting keeps the cell indices distinct |
| Landmarks.RemoveSpaces | core/navigation.py:179 | `replace(' ', '')`: the same characters without the spaces |
| Landmarks.IsLandmark | core/navigation.py:160-163 | booths, exhibition halls, stages and lounges |
| Landmarks.IsGoodLandmark | core/navigation.py:165-181 | large areas always; other cells need a name that is neither blank nor a number, spaces disregarded (characterised by `GoodNameCharacterised`) |
| Landmarks.GoodNameCharacterised | core/navigation.py:165-181 | a booth with a name is a good landmark exactly when the name has a character that is not Unicode whitespace (as `str.strip` removes it) and a character that is neither a space nor a Unicode digit (as `str.isdigit` accepts it) |
| Landmarks.GoodLandmarkExamples | core/navigation.py:165-181 | booths named "432", "4 32", "  " or nothing are rejected; a booth named "A1" and any stage are accepted |
| Landmarks.UnicodeNameExamples | core/navigation.py:165-181 | with Python's Unicode tests, a booth named by full-width digits "１２３" or by an ideographic space is rejected, one named "舞台" is accepted |
| Landmarks.LargerRanksHigher | core/navigation.py:183-207 | among cells of one type, the larger footprint gets the smaller (more important) priority number |
| Landmarks.CalculateLandmarkArea | core/navigation.py:183-187 | the footprint in units, width times height |
| Landmarks.GetLandmarkPriority | core/navigation.py:189-207 | the type base (100, 200, 300, 400, else 500) minus the area; `LargerRanksHigher` and `TypeRanksFirst` state its order |
| Landmarks.TypeRanksFirst | core/navigation.py:189-207 | below 100 units of area, hall before stage before lounge before booth before the rest |
| Landmarks.InsertDistinct | core/navigation.py:322 | inserting into a strictly increasing sequence keeps it strictly increasing and adds exactly the value |
| Landmarks.SortedDistinct | core/navigation.py:322 | `sorted(set(positions))`: strictly increasing and holding exactly the positions |
| Landmarks.DistinctCount | core/navigation.py:322-340 | a strictly increasing sequence has as many values as elements |
| Landmarks.CalculateCoverageLength | core/navigation.py:317-340 | the run-length loop returns the number of distinct positions |
| Landmarks.InsertBy | core/navigation.py:429-435 | stable insertion keeps the order and adds exactly the element |
| Landmarks.SortBy | core/navigation.py:429-435 | Python's stable sort: ordered by key and a permutation of the input |
| Landmarks.PyTake | core/navigation.py:432 | `s[:k]`: a prefix, of length k when k is between 0 and the length |
| Landmarks.Minimum | core/navigation.py:435 | `min(positions)`: an element no larger than any other |
| Landmarks.ProcessLandmarkSequence | core/navigation.py:413-437 | keeps the best `maxCount` by coverage (none left out covers more), a sub-multiset of the input, in the order first seen |
| Landmarks.TopKeepsBest | core/navigation.py:428-432 | cutting a sequence sorted by falling coverage keeps nothing worse than what is cut off |
| Landmarks.OnSide | core/navigation.py:392-394 | the landmarks on one side, exactly, in order |
| Landmarks.ThreeSequencesShape | core/navigation.py:368-411 | each side sequence holds only landmarks of that side, at most the configured number, none covering less than a left-out one, in first-seen order; the crossing sequence is empty |
| Landmarks.ThreeSequences | core/navigation.py:368-411 | the processed left, right and front sequences and the empty crossing sequence (shape proved by `ThreeSequencesShape`) |
| Landmarks.ProcessedSideShape | core/navigation.py:398-404 | one side's processed sequence has that shape |
| Landmarks.BestUpTo | core/navigation.py:888-902 | the running best: -1 and no sequence, or a non-empty sequence and its mean coverage |
| Landmarks.BestUpToFacts | core/navigation.py:888-902 | the comparison settles on the highest mean coverage, the first on ties, provided it beats -1 |
| Landmarks.SelectBestSequenceWithFallback | core/navigation.py:872-915 | the best primary sequence; when fallback is on, its mean is below the threshold and there are front landmarks, the combined sequence as written (the best-covered weak landmark, then the front landmark with the largest priority number); the front sequence when no primary sequence has landmarks; always a named sequence when one beats -1 |
| Landmarks.SelectionForFacts | core/navigation.py:872-915 | the same facts, combined sequence as written included, about the selection function the formatter uses |
| Landmarks.SelectionFor | core/navigation.py:872-915 | the selection as a function of the sequences and the configuration, combined sequence as written (facts in `SelectionForFacts`) |
| Landmarks.BestIsUnique | core/navigation.py:888-902 | at most one primary sequence is the best |
| Landmarks.NoBest | core/navigation.py:888-902 | when no non-empty sequence beats -1, none is the best |
| Landmarks.MeanNonNegative | core/navigation.py:897-899 | non-negative coverages give a non-negative mean, so any non-empty sequence beats -1 |
| Landmarks.FirstMaxBy | core/navigation.py:932 | `max(key=...)`: an element with the largest key |
| Landmarks.FirstMinBy | core/navigation.py:934-935 | the `min(key=...)` the comment at line 934 asks for: an element with the smallest key |
| Landmarks.CreateCombinedSequenceAsWritten | core/navigation.py:917-943 | the two-landmark fallback as written: the second landmark has the LARGEST priority number among the front landmarks |
| Landmarks.CreateCombinedSequence | core/navigation.py:917-943 | the best-covered landmark of the weak sequence, then the most important front landmark (smallest priority number) |
| Landmarks.CombinedSequencePicksLeastImportant | core/navigation.py:935 | with a booth and a hall in front, the code names the booth although the hall ranks higher |
| Nearby.LandmarksIn | core/navigation.py:596-602 | the good landmarks of a unit's list, each with the given side, exactly |
| Nearby.IndexedScanAgrees | core/navigation.py:589-602 | searching through the unit index gives the same result as searching the grid |
| Nearby.NearbyDistinctSorted | core/navigation.py:569-616 | the landmarks around a point have distinct cell indices and come front first |
| Nearby.NearbyLandmarks | core/navigation.py:569-616 | the good landmarks around a point, first per cell index, sorted front first (facts in `NearbyDistinctSorted`, `NearbySound`, `NearbyComplete`) |
| Nearby.NearbySound | core/navigation.py:569-616 | each one is a good landmark covering a unit of the search square (not its centre), with the side seen from that offset |
| Nearby.NearbyComplete | core/navigation.py:569-616 | every good landmark covering a unit of the square (not its centre) is found |
| Segment.SightingsIn | core/navigation.py:254-273 | the sightings of the qualifying cells of one unit, exactly |
| Segment.IndexedSightingsAgree | core/navigation.py:247-286 | the unit index sees the same from every sample as the grid |
| Segment.SightingSound | core/navigation.py:238-286 | every sighting is of a qualifying cell covering a unit of the square around a sample |
| Segment.SightingComplete | core/navigation.py:238-286 | every qualifying cell covering a unit of the square around a sample is sighted |
| Segment.SightingsInSampleOrder | core/navigation.py:238-286 | the sightings come sample by sample: sample numbers never decrease |
| Segment.NumberedInSampleOrder | core/navigation.py:238-286 | a scan whose finds carry their own sample number is in sample order |
| Segment.TabulateEntry | core/navigation.py:277-286 | an index is in the table exactly when it was sighted; its entry holds the first cell, its side and all the samples and distances |
| Segment.TabulateOrder | core/navigation.py:277-286 | the order lists every recorded index once |
| Segment.FirstOf | core/navigation.py:277-283 | the cell of the first sighting of an index |
| Segment.NearPositionsOf | core/navigation.py:292-297 | the samples of the sightings within the distance filter |
| Segment.NearPositionsRecorded | core/navigation.py:294-297 | filtering the recorded samples by the recorded distances gives exactly those samples |
| Segment.ReportDistinct | core/navigation.py:288-315 | the reports are about distinct cells |
| Segment.IntermediateDistinct | core/navigation.py:209-315 | no two landmarks along a segment share a cell index, and a segment without length has none |
| Segment.IntermediateLandmarks | core/navigation.py:209-315 | the landmarks along a segment with their side, near samples and coverage (facts in `IntermediateSound`, `IntermediateComplete`, `IntermediateDistinct`, `IntermediateCoverageBound`) |
| Segment.IntermediateEntry | core/navigation.py:209-315 | a landmark along the segment: its side, near samples and coverage as the table records them |
| Segment.IntermediateSound | core/navigation.py:209-315 | each landmark is a qualifying cell around a sample, with its segment side, exactly its near samples, and coverage = distinct samples / length |
| Segment.IntermediatePositionsInOrder | core/navigation.py:209-315 | its samples never decrease and lie between 0 and the length |
| Segment.IntermediateAllSeen | core/navigation.py:209-315 | every landmark was seen from at least one sample |
| Segment.IntermediateCoverageBound | core/navigation.py:302-305 | coverage is positive and at most (L + 1) / L |
| Segment.IntermediateComplete | core/navigation.py:209-315 | every qualifying cell within the distance filter of a sample is reported, with that sample among its samples |
| Segment.ReportAppearances | core/navigation.py:288-315 | the report loop returns, per index in first-met order, the landmark with its near samples and coverage |
| Crossing.LargeAreasIn | core/navigation.py:521-526 | the halls, stages and lounges of a unit's list, exactly |
| Crossing.IndexedCrossedAgree | core/navigation.py:509-526 | the unit index sees the same large areas from every sample as the grid |
| Crossing.CrossingDistinctSorted | core/navigation.py:486-531 | the crossed areas have distinct indices and are in priority order; a segment without length crosses none |
| Crossing.CrossingLandmarks | core/navigation.py:486-531 | the large areas on the samples of a segment, first per index, in priority order (facts in `CrossingDistinctSorted`, `CrossingSound`, `CrossingComplete`) |
| Crossing.CrossingSound | core/navigation.py:486-531 | each crossed area is a large area covering a sample's unit |
| Crossing.CrossingComplete | core/navigation.py:486-531 | every large area covering a sample's unit is reported |
| Crossing.KeysSnoc | core/navigation.py:524-526 | the indices seen grow by exactly the new element's index |
| Pathfinder.CellWalkable | core/pathfinder.py:104-114 | with `allow_enter_area` a large area is walkable; a type missing from the table is walkable |
| Pathfinder.CellCost | core/pathfinder.py:109-114 | an entered large area costs at least 2.0; non-negative table costs give non-negative costs |
| Pathfinder.ResolveOptions | core/pathfinder.py:552-557 | given options win; otherwise the legacy flags, defaulting to false, with no turn penalty |
| Pathfinder.CalculateBounds | core/pathfinder.py:72-90 | the smallest box around every footprint unit, or (0, 0) alone when no cell has a footprint |
| Pathfinder.UnitWalkableIffAllOwners | core/pathfinder.py:95-129 | a unit is walkable exactly when every cell covering it is walkable |
| Pathfinder.OwnerIsLastOccupant | core/pathfinder.py:95-129 | the cost and index of a unit come from the last cell covering it; none when none covers it |
| Pathfinder.EnterableAreaUnits | core/pathfinder.py:112-114 | with `allow_enter_area`, units of large areas only are walkable, and those owned by one cost at least 2.0 |
| Pathfinder.PaintCell | core/pathfinder.py:115-127 | the footprint units get the cell's cost and index and lose walkability if it is not walkable; every other unit is unchanged |
| Pathfinder.BuildMatrices | core/pathfinder.py:95-129 | every matrix entry is the walkability, cost and cell index its unit's occupants give it |
| Pathfinder.PathfindingGrid.constructor | core/pathfinder.py:55-70 | the grid holds the cells, tight bounds and matrices that describe the cells |
| Pathfinder.PathfindingGrid.GridMatrixRoundTrip | core/pathfinder.py:131-141 | grid-to-matrix and matrix-to-grid are inverse both ways |
| Pathfinder.PathfindingGrid.GridToMatrix | core/pathfinder.py:131-135 | the matrix position (row, col) of a unit, offset by the grid minimum; inverse of `MatrixToGrid` (`GridMatrixRoundTrip`) |
| Pathfinder.PathfindingGrid.MatrixToGrid | core/pathfinder.py:137-141 | the unit (col, row) of a matrix position; inverse of `GridToMatrix` (`GridMatrixRoundTrip`) |
| Pathfinder.PathfindingGrid.CostsFromRules | core/pathfinder.py:95-129 | non-negative table costs make every matrix cost non-negative |
| Pathfinder.PathfindingGrid.FindWalkableCandidates | core/pathfinder.py:143-169 | exactly the walkable units of the ring around the cell, in column-major order; none for an unknown index |
| Pathfinder.PathfindingGrid.ScanRingColumn | core/pathfinder.py:157-167 | one column of the ring adds exactly its walkable units, in order |
| Pathfinder.PathfindingGrid.FindWalkableNearBooth | core/pathfinder.py:171-242 | None for an unknown index; a walkable unit; the ring unit nearest the centre (ties by column, then row) whenever the ring has one |
| Pathfinder.PathfindingGrid.SearchWalkableFrom | core/pathfinder.py:210-242 | the breadth-first fallback returns only walkable units |
| Pathfinder.PathfindingGrid.RelaxKeepsInvariant | core/pathfinder.py:340-355 | recording a cheaper way to a neighbour keeps the search state consistent and its links acyclic |
| Pathfinder.PathfindingGrid.ExpandNeighbours | core/pathfinder.py:315-355 | one round of relaxation keeps the search invariant and only adds open entries |
| Pathfinder.PathfindingGrid.RelaxNeighbour | core/pathfinder.py:316-355 | one neighbour relaxed: the invariant kept, at most one open entry added |
| Pathfinder.PathfindingGrid.ReconstructedIsSearchPath | core/pathfinder.py:450-467 | a path rebuilt from the links runs from a start to a goal through open units by allowed moves |
| Pathfinder.PathfindingGrid.Search | core/pathfinder.py:279-357 | a path found runs from a start to a goal by allowed moves through walkable units; a start that is a goal gives the one-point path |
| Pathfinder.PathfindingGrid.CellIdsAlong | core/pathfinder.py:481-482 | the cell index recorded at each position of the path |
| Pathfinder.PathfindingGrid.UnitsAlong | core/pathfinder.py:477-479 | the grid unit of each position of the path |
| Pathfinder.PathfindingGrid.PrefixCostNonNegative | core/pathfinder.py:486-500 | non-negative unit costs give a non-negative weighted cost |
| Pathfinder.PathfindingGrid.UnitCostIsLength | core/pathfinder.py:486-500 | where every unit costs 1.0, the weighted cost is the geometric length |
| Pathfinder.PathfindingGrid.RouteStep | core/pathfinder.py:476-500 | one more position extends the unit path, route, length and cost as the loop does |
| Pathfinder.PathfindingGrid.PathToRouteResult | core/pathfinder.py:469-510 | unit path, moves = points - 1, route = cell indices with runs and empty units dropped, length and weighted cost of the path |
| Pathfinder.PathfindingGrid.UnitPathOfSearchPath | core/pathfinder.py:469-510 | the unit path of a search path moves through walkable units by allowed moves |
| Pathfinder.PathfindingGrid.OpenStarts | core/pathfinder.py:262-267 | exactly the start units that are on the grid and walkable, as matrix positions |
| Pathfinder.PathfindingGrid.OpenGoals | core/pathfinder.py:269-274 | exactly the goal units that are on the grid and walkable, as matrix positions |
| Pathfinder.PathfindingGrid.RouteOfSearchPath | core/pathfinder.py:244-357 | the route of a search path runs from a given start to a given goal |
| Pathfinder.PathfindingGrid.SharedUnitIsSharedPosition | core/pathfinder.py:259-277 | a walkable unit that is both start and goal survives both filters |
| Pathfinder.PathfindingGrid.AStarMulti | core/pathfinder.py:244-357 | None without usable starts or goals; any route runs between a start and a goal; a shared walkable unit gives the empty route |
| Pathfinder.PathfindingGrid.SearchRoute | core/pathfinder.py:278-357 | the search and its conversion: any route starts and ends on walkable units |
| Pathfinder.PathfindingGrid.AStar | core/pathfinder.py:359-431 | None unless both units are walkable; any route joins them with eight directions; start = end gives the empty route |
| Pathfinder.PathfindingGrid.BoothCandidates | core/pathfinder.py:563-580 | the ring units, or the single fallback unit; None for an unknown index; all walkable |
| Pathfinder.PathfindingGrid.RouteBetweenBooths | core/pathfinder.py:560-602 | None for an unknown index; any route holds both indices, no repeats, and runs between the two cells' rings |
| Pathfinder.CollapseStep | core/pathfinder.py:482-484 | the route grows by one index as the loop appends it |
| Pathfinder.Collapse | core/pathfinder.py:481-484 | the route of cell indices: no -1, no index twice in a row (facts in `CollapseFacts`) |
| Pathfinder.CollapseFacts | core/pathfinder.py:481-484 | the route holds exactly the non-empty indices met, never -1, never twice in a row |
| Pathfinder.DiagonalMoves | core/pathfinder.py:492-496 | at most one diagonal per move |
| Pathfinder.MoveDistance | core/pathfinder.py:492-496 | the square root of two for a diagonal move, 1 otherwise (`PathLengthSplit`) |
| Pathfinder.PathLengthSplit | core/pathfinder.py:486-500 | length = orthogonal moves + the square root of two per diagonal |
| Pathfinder.PopMin | core/pathfinder.py:306-307 | a heap pop: a least (f, row, col) entry, and the rest of the open set |
| Pathfinder.InitialOpenSet | core/pathfinder.py:286-290 | every start has g = 0 and an entry with f = h, in order |
| Pathfinder.FirstPopIsGoal | core/pathfinder.py:306-313 | a start that is a goal is popped (as a goal) first |
| Pathfinder.MoveMultiplier | core/pathfinder.py:293-304 | the square root of two exactly for diagonals, else 1 |
| Pathfinder.AddLinkKeepsAcyclic | core/pathfinder.py:351-353 | a link to a predecessor that does not lead back keeps `came_from` acyclic |
| Pathfinder.ChainDescends | core/pathfinder.py:351-353 | following links never raises the recorded cost |
| Pathfinder.Reverse | core/pathfinder.py:456 | the reversed sequence |
| Pathfinder.ReconstructPath | core/pathfinder.py:450-467 | the path starts at a position without a link, ends at the goal, and follows the links |
| Pathfinder.WithEndpoints | core/pathfinder.py:589-593 | the missing start index goes in front, the missing end index at the back, the route in between; no repeats introduced |
| Pathfinder.FindRoute | core/pathfinder.py:523-602 | the grid is built from the cells under the resolved options; None for an unknown index; any route is a booth route between the two cells |
| RouteSteps.TurnPoints | core/navigation.py:720-726 | turn points lie strictly inside the path |
| RouteSteps.TurnPointsSound | core/navigation.py:720-726 | each is a turn with its direction, in increasing order |
| RouteSteps.TurnPointsComplete | core/navigation.py:720-726 | every interior point that is not straight is a turn point |
| RouteSteps.FirstWithSide | core/navigation.py:783-789 | the first landmark on the side, None exactly when there is none |
| RouteSteps.FirstWithIdx | core/navigation.py:843-850 | a landmark with the index, None exactly when there is none |
| RouteSteps.SameSideIsFirstOnTurnSide | core/navigation.py:784 | the same-side landmark is the first found on the side turned to (left for a left turn, right for a right turn); none when going straight or when nothing lies on that side |
| RouteSteps.PickStartLandmark | core/navigation.py:737-744 | a landmark found around the start, None exactly when none was found (its preference in `PickStartPrefersFront`) |
| RouteSteps.PickTurnLandmark | core/navigation.py:779-791 | a landmark found around the turn, None exactly when none was found (its preference in `PickTurnPrefersFrontThenSide`) |
| RouteSteps.PickStartPrefersFront | core/navigation.py:738-744 | the first landmark in front when there is one, else the first found |
| RouteSteps.PickTurnPrefersFrontThenSide | core/navigation.py:781-791 | the first landmark in front when there is one, else the first on the side turned to, else the first found |
| RouteSteps.OrientationOnLongFirstLeg | core/navigation.py:731-757 | at most one orientation step, numbered 1, naming a landmark seen at the start, only when the first turn is more than three units in |
| RouteSteps.TargetOf | core/navigation.py:828-832 | the destination index exists exactly when the route has cells |
| RouteSteps.TargetOfAsWritten | core/navigation.py:831-832 | the destination index as the source tests it: that of `TargetOf`, except that an index of 0 counts as none |
| RouteSteps.ArrivalFor | core/navigation.py:828-861 | the arrival landmark for a destination index: none without one or without a cell carrying it; else the last such cell, on the side the radius-1 search meets it, else in front (properties in `ArrivalAsWritten`, `ArrivalNamesDestination`) |
| RouteSteps.ArrivalAsWritten | core/navigation.py:828-861 | with the test as written the arrival names the destination exactly when the route has cells, the last index is not 0 and a cell carries it; otherwise it equals the corrected arrival |
| RouteSteps.NavigationSteps | core/navigation.py:697-870 | the steps `analyze_route` returns, with the destination test as written (properties in `StepsNumbered`, `StepsCoverPath`, `StepsEndWithArrival`, `StepsSpeak`) |
| RouteSteps.TurnInstructionsFacts | core/navigation.py:760-809 | one leg and turn: numbering kept, the distance covers the leg, the turn recorded, no arrival |
| RouteSteps.TurnsThroughFacts | core/navigation.py:760-809 | all turns: the same, summed over the turn points |
| RouteSteps.LegsFacts | core/navigation.py:731-825 | everything before the arrival is numbered from 1, turns at each turn point, and its distances add up to the path length |
| RouteSteps.StepsNumbered | core/navigation.py:697-870 | the steps are numbered 1..n, the last and only the last is the arrival, and a path of under two points gives the arrival alone |
| RouteSteps.ArrivalAppended | core/navigation.py:863-868 | appending the arrival keeps the numbering |
| RouteSteps.StepsEndWithArrival | core/navigation.py:863-868 | the last step is the arrival naming the destination landmark |
| RouteSteps.StepsCoverPath | core/navigation.py:697-870 | one turn step per turn point, in order; continue distances add up to points - 1 |
| RouteSteps.StraightPathSteps | core/navigation.py:812-868 | a path without turns gives one continue step over its length, then the arrival |
| RouteSteps.TwoPointsNoTurn | core/navigation.py:720-726 | a two-point path never turns |
| RouteSteps.LegsSpeak | core/navigation.py:731-825 | every step before the arrival is worth a sentence |
| RouteSteps.OrientSpeaks | core/navigation.py:731-757 | the orientation step names its landmark |
| RouteSteps.TurnPointsTurn | core/navigation.py:720-726 | every turn point lies inside the path and turns |
| RouteSteps.FinalLegSpeaks | core/navigation.py:812-825 | the last leg, when there is one, moves |
| RouteSteps.StepsSpeak | core/navigation.py:697-870 | every step of a route is worth a sentence |
| RouteSteps.ArrivalAtIndexZero | core/navigation.py:831-832 | with the test as written, a route ending at cell 0 arrives without naming it, though it has a destination |
| RouteSteps.ArrivalNamesDestination | core/navigation.py:828-861 | with the corrected test, the arrival names the destination exactly when the route has cells and the grid has a cell with the last index |
| RouteSteps.ArrivalForIndex | core/navigation.py:833-861 | for a destination index, an arrival landmark exists exactly when some grid cell carries that index, and it names that index |
| RouteAnalysis.RouteAnalyzer.constructor | core/navigation.py:133-158 | the indices describe the grid: each unit lists its covering cells and each index leads to its last cell |
| RouteAnalysis.RouteAnalyzer.LandmarksAtOffset | core/navigation.py:591-602 | what one offset of the search yields |
| RouteAnalysis.RouteAnalyzer.GoodLandmarksIn | core/navigation.py:597-602 | the loop over one unit's cells keeps exactly its good landmarks |
| RouteAnalysis.RouteAnalyzer.ScanColumn | core/navigation.py:590-602 | one column of the search square |
| RouteAnalysis.RouteAnalyzer.ScanSquare | core/navigation.py:589-602 | the whole search square, column by column |
| RouteAnalysis.RouteAnalyzer.FindNearbyLandmarks | core/navigation.py:569-616 | equals the nearby-landmark function, whose soundness, completeness, distinctness and order are proved |
| RouteAnalysis.RouteAnalyzer.RecordSighting | core/navigation.py:277-286 | one sighting recorded in the table |
| RouteAnalysis.RouteAnalyzer.RecordSightings | core/navigation.py:258-286 | the sightings recorded in order |
| RouteAnalysis.RouteAnalyzer.RecordColumn | core/navigation.py:250-286 | one column of a sample's square recorded |
| RouteAnalysis.RouteAnalyzer.RecordSample | core/navigation.py:247-286 | one sample's square recorded |
| RouteAnalysis.RouteAnalyzer.FindIntermediateLandmarksWithCoverage | core/navigation.py:209-315 | equals the segment-landmark function, whose soundness, completeness, distinctness and coverage bounds are proved |
| RouteAnalysis.RouteAnalyzer.GenerateThreeSequences | core/navigation.py:368-411 | the three sequences of the landmarks along the segment, with their shape proved |
| RouteAnalysis.RouteAnalyzer.AddIfUnseen | core/navigation.py:523-526 | a large area kept exactly when its index is new |
| RouteAnalysis.RouteAnalyzer.AddCrossed | core/navigation.py:521-526 | one unit's large areas added, first per index |
| RouteAnalysis.RouteAnalyzer.CollectCrossed | core/navigation.py:507-526 | the loop keeps the first large area per index, sample by sample |
| RouteAnalysis.RouteAnalyzer.DetectCrossingLandmarks | core/navigation.py:486-531 | equals the crossing function, whose soundness, completeness, distinctness and order are proved |
| RouteAnalysis.RouteAnalyzer.OrientStep | core/navigation.py:731-757 | the orientation step of the step function |
| RouteAnalysis.RouteAnalyzer.AppendTurn | core/navigation.py:760-809 | the leg and turn of the step function |
| RouteAnalysis.RouteAnalyzer.AddTurn | core/navigation.py:760-809 | the same, with the search around the turn point |
| RouteAnalysis.RouteAnalyzer.FindArrivalSide | core/navigation.py:843-850 | the side on which the destination is met, None exactly when it is not |
| RouteAnalysis.RouteAnalyzer.ArrivalLandmark | core/navigation.py:828-861 | the arrival landmark of the destination test as written: none when the route is empty, its last index is 0 or no cell carries it; else that cell, on the side the radius-1 search meets it, else in front |
| RouteAnalysis.RouteAnalyzer.FindTurnPoints | core/navigation.py:720-726 | the loop returns the turn points |
| RouteAnalysis.RouteAnalyzer.AddTurns | core/navigation.py:760-809 | a leg and turn per turn point |
| RouteAnalysis.RouteAnalyzer.AddFinalLeg | core/navigation.py:812-825 | the last leg when any of the path is left |
| RouteAnalysis.RouteAnalyzer.FinishSteps | core/navigation.py:812-868 | the last leg, then the arrival |
| RouteAnalysis.RouteAnalyzer.StartOrientation | core/navigation.py:731-757 | the orientation step, when there is one |
| RouteAnalysis.RouteAnalyzer.AnalyzeRoute | core/navigation.py:697-870 | equals the step function (destination test as written), whose numbering, arrival, turn and distance properties are proved |
| RuleFormatting.NatText | core/navigation.py:1019 | decimal digits, never empty |
| RuleFormatting.NatTextRoundTrip | core/navigation.py:1019 | reading the digits back gives the number; a leading zero only for 0 |
| RuleFormatting.GetSideText | core/navigation.py:1189-1197 | the side's wording; "nearby" exactly for an unknown side name |
| RuleFormatting.SideTextsDistinct | core/navigation.py:1189-1197 | different sides get different wordings; "nearby" exactly for the unknown side |
| RuleFormatting.JoinLandmarksFirstThree | core/navigation.py:1199-1206 | exactly the first three names at most, joined in order |
| RuleFormatting.FormatAction | core/navigation.py:1219-1228 | an action without a wording keeps its name |
| RuleFormatting.FormatActionDistinct | core/navigation.py:1219-1228 | different actions are worded differently |
| RuleFormatting.UnitsToBoothCount | core/navigation.py:953-955 | at least 1; 1 exactly below 3.75 units; otherwise the nearest whole number to units / 2.5 |
| RuleFormatting.BoothsIn | core/navigation.py:986-991 | the booths of a unit's list that count, exactly |
| RuleFormatting.BoothsBesideMember | core/navigation.py:982-991 | a booth beside a sample is counted exactly when it covers one of the four neighbouring units |
| RuleFormatting.BoothsBesideAgree | core/navigation.py:982-991 | the same neighbouring cells give the same booths |
| RuleFormatting.PassedBoothSound | core/navigation.py:957-993 | every counted index belongs to a good booth beside a sample |
| RuleFormatting.PassedBoothComplete | core/navigation.py:957-993 | every good booth beside a sample is counted |
| RuleFormatting.IndexedBoothsAgree | core/navigation.py:957-993 | the unit index counts the same booths as the grid |
| RuleFormatting.CountBoothsIn | core/navigation.py:986-991 | the counter and seen set after one unit's list |
| RuleFormatting.CountAround | core/navigation.py:982-991 | the counter and seen set after the four neighbouring units |
| RuleFormatting.CountAtUnit | core/navigation.py:983-991 | the same, for one neighbouring unit |
| RuleFormatting.CountAlong | core/navigation.py:965-993 | the count is the number of distinct booths beside the samples |
| RuleFormatting.CountSample | core/navigation.py:970-991 | the counter and seen set after one sample |
| RuleFormatting.CountPassedBooths | core/navigation.py:957-993 | the number of distinct good booths beside the samples of the segment |
| RuleFormatting.IntermediateTextNames | core/navigation.py:1039-1064 | a crossed area first; else a landmark of highest coverage with its side; else the count; the count added when above one |
| RuleFormatting.IntermediateText | core/navigation.py:1043-1064 | the medium-leg wording from the crossed areas, the landmarks with coverage and the booth count (facts in `IntermediateTextNames`) |
| RuleFormatting.LandmarkNames | core/navigation.py:1094-1106 | the names of a sequence's landmarks, in order |
| RuleFormatting.MultipleTextTwoMinutes | core/navigation.py:1066-1107 | every wording by a landmark sequence ends with "about 2 minutes" |
| RuleFormatting.MultipleText | core/navigation.py:1077-1107 | the long-leg wording of a selection: combined, crossing, front or side (facts in `MultipleTextTwoMinutes`, `LandmarkNames`) |
| RuleFormatting.DistanceTextEmpty | core/navigation.py:995-1037 | a leg goes without words exactly when its length is 0 |
| RuleFormatting.DistanceText | core/navigation.py:995-1037 | the distance wording by leg length and by whether an analyser and both points are given (facts in `DistanceTextEmpty`, `LongDistanceTwoMinutes`, `EstimatedDistanceText`) |
| RuleFormatting.LongDistanceTwoMinutes | core/navigation.py:1030-1037 | a leg over 15 units always ends with "about 2 minutes" |
| RuleFormatting.EstimatedDistanceText | core/navigation.py:995-1037 | without an analyser: one booth up to 3 units, the rounded count up to 15, "a longer way" beyond |
| RuleFormatting.DistanceExamples | core/navigation.py:995-1037 | 1, 5 and 20 units are worded as one booth, about two booths and a longer way |
| RuleFormatting.WordCrossing | core/navigation.py:1044-1049 | the wording through a crossed area |
| RuleFormatting.WordAlongside | core/navigation.py:1051-1064 | the wording by the best-covered landmark, or by the count |
| RuleFormatting.FormatWithIntermediateLandmarks | core/navigation.py:1039-1064 | the medium-leg wording function |
| RuleFormatting.FormatWithMultipleLandmarks | core/navigation.py:1066-1107 | the long-leg wording of the sequence the selection as written picks, combined sequence included |
| RuleFormatting.FormatDistance | core/navigation.py:995-1037 | the distance wording function, whose properties are proved |
| RuleFormatting.RenderLeg | core/navigation.py:1270-1282 | the path index stays in the path and does not move without a path |
| RuleFormatting.RenderStep | core/navigation.py:1255-1294 | the same, for any step |
| RuleFormatting.Render | core/navigation.py:1255-1294 | the path index stays within the unit path throughout |
| RuleFormatting.RenderStepFacts | core/navigation.py:1255-1294 | a step worth a sentence gets exactly one and moves the index by its leg, up to the path's end |
| RuleFormatting.AllSpeakNonNegative | core/navigation.py:1270-1282 | steps worth a sentence never move backwards |
| RuleFormatting.RenderOnePerStep | core/navigation.py:1255-1294 | one sentence per step; the index is the sum of the legs, up to the path's end |
| RuleFormatting.RouteTextOnePerStep | core/navigation.py:1230-1296 | for a route of two or more points: one sentence per step, the legs walk the path to its end, the last sentence is the arrival |
| RuleFormatting.NavigationText | core/navigation.py:1230-1296 | the sentences of the steps, with the start and end cells of the route excluded from the landmark search (facts in `RouteTextOnePerStep`, `RenderOnePerStep`, `RenderLastArrival`) |
| RuleFormatting.RenderLastArrival | core/navigation.py:1264-1268 | steps ending with the arrival end with its sentence |
| RuleFormatting.WordStep | core/navigation.py:1255-1294 | one step of the loop, as the rendering function |
| RuleFormatting.WordLeg | core/navigation.py:1270-1282 | one continue step of the loop, as the rendering function |
| RuleFormatting.WordDistance | core/navigation.py:995-1037 | the distance wording, through a wording that describes it |
| RuleFormatting.GenerateNavigationText | core/navigation.py:1230-1296 | the sentences of the rendering function, whose one-per-step and arrival properties are proved |

## Left out

- File and console I/O is not modelled: `load_grid`, `save_grid`, reading the metadata file (only its default is kept, `DefaultMeta`), `load_grid_types`, `find_route_from_files`, `NavigationConfig.from_yaml`/`to_yaml`, `NavigationGenerator`, `main` and every `print`. `find_route` takes the type table as a parameter instead of loading it when none is given.
- `overlay_grid` and the colour table draw on images; they are not part of this model.
- Floating point is modelled by exact reals. The square root of two is the decimal nearest the double. Rounding errors in sums, in `pixel_to_grid`'s division and in the sampling `i / L * d` are not modelled; the sampling is the exact truncated quotient.
- The A* heuristic is a parameter, not the Euclidean distance itself; it is assumed non-negative and zero exactly on the goal set.
- Pathfinder.PathfindingGrid.Search: does not state that the path is of least cost, nor that a path is found whenever one exists. The main loop runs on `fuel` rounds, because its termination is not provable with real-valued costs and turn penalties.
- Pathfinder.PathfindingGrid.AStarMulti: for the same reasons, neither optimality nor completeness is stated. The same holds for Pathfinder.PathfindingGrid.AStar, Pathfinder.PathfindingGrid.RouteBetweenBooths and Pathfinder.FindRoute.
- Pathfinder.PathfindingGrid.ExpandNeighbours: states the preserved search invariant and the open set's growth, not the exact new state. Pathfinder.PathfindingGrid.RelaxNeighbour is stated the same way.
- Pathfinder.PathfindingGrid.SearchWalkableFrom: promises a walkable unit, not that it is the first breadth-first hit. Pathfinder.PathfindingGrid.FindWalkableNearBooth is exact only when the ring has a walkable unit.
- Pathfinder.PathfindingGrid.PathToRouteResult: `total_cost` leaves out turn penalties, as the source does.
- Python's `ZeroDivisionError` for zero unit sizes is excluded by the precondition of `pixel_to_grid` (Grid.PixelToGrid).
- The analyser's `grid_types` argument is never read by the modelled code and is not kept.
- `find_intermediate_landmarks` is only a compatibility wrapper around the coverage search; it is not modelled separately.
- `find_landmarks_same_side` has no caller in the core. `select_best_sequence_by_coverage` and `select_best_landmark_sequence` are formatter helpers the navigation text never calls. None of the three is modelled.
- The `try/except` around `count_passed_booths` in `format_distance` is not modelled: the modelled counting cannot fail.
- RuleFormatting.GenerateNavigationText: requires that no continue step has a negative distance. The analyser never produces one (`AllSpeakNonNegative`), and Python's slicing with a negative end is not modelled.
- The `.get('name', default)` fallbacks of the analyser and the formatter (core/navigation.py:753, 798, 847, 859 and 1048-1106) are not modelled: a `Cell` always carries its `name` field (possibly `None`), as `save_grid` writes every field (core/grid.py:47), so the key is never missing.
- Pathfinder.PathfindingGrid.Search: requires non-negative matrix costs (`NonNegativeCosts`), where the source accepts any cost. With a negative cost the strict-less relaxation can link positions into a cycle, which the search invariant (acyclic links) excludes.
- Pathfinder.PathfindingGrid.ExpandNeighbours: requires non-negative matrix costs, as `Search` does.
- Pathfinder.PathfindingGrid.RelaxNeighbour: requires non-negative matrix costs, as `Search` does.
- Pathfinder.PathfindingGrid.AStarMulti: requires non-negative matrix costs, as `Search` does.
- Pathfinder.PathfindingGrid.SearchRoute: requires non-negative matrix costs, as `Search` does.
- Pathfinder.PathfindingGrid.AStar: requires non-negative matrix costs, as `Search` does.
- Pathfinder.PathfindingGrid.RouteBetweenBooths: requires non-negative matrix costs, as `Search` does.
- Pathfinder.FindRoute: requires non-negative costs in the type table (`NonNegativeRules`), which give non-negative matrix costs (`CostsFromRules`).
- In `_path_to_route_result` and the analyser, an empty `unit_path` or route and `None` are the same value (the empty sequence).
- Python dicts iterate in insertion order. The model keeps that order explicitly: the table's `order` list, first-met order.
- The `steps == 0` branch of `count_passed_booths` (core/navigation.py:971-972) and the `move_length == 0` branch of `detect_crossing_landmarks` (core/navigation.py:510-511) cannot be reached after the early returns for a segment without length; they are not modelled.

## Findings

| source | as written | input that shows it | evidently intended | confidence | as-written member | corrected member |
|---|---|---|---|---|---|---|
| core/navigation.py:935 | the fallback walks to `max(front, key=priority)`, the front landmark with the largest priority number, i.e. the least important one | front = [a 4 x 4 exhibition hall (priority 84), a 1 x 1 booth (priority 399)]: the booth is named | the comment asks for the highest-priority front landmark, i.e. the smallest priority number (`min`) | not executed | Landmarks.CreateCombinedSequenceAsWritten, Landmarks.CombinedSequencePicksLeastImportant | Landmarks.CreateCombinedSequence |
| core/navigation.py:831-832 | `if target_idx:` treats cell index 0 as "no destination" | a route whose last cell index is 0, with cell 0 in the grid: the arrival names no landmark | test `route` for non-emptiness (or `target_idx is not None`) so that index 0 is named | not executed | RouteSteps.TargetOfAsWritten, RouteSteps.ArrivalAtIndexZero | RouteSteps.TargetOf, RouteSteps.ArrivalNamesDestination |
