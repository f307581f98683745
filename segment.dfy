/**
 * The search for landmarks along a straight segment of the route (core/navigation.py,
 * `find_intermediate_landmarks_with_coverage`) and for the large areas the segment crosses
 * (`detect_crossing_landmarks`), as functions of the grid.
 *
 * The segment from `start` to `end` is sampled at L + 1 points, L its Chebyshev length.
 * Around every sample the square of offsets is searched; every qualifying cell met there is
 * a sighting, recorded against its cell index in a table that keeps the order in which the
 * indices were first met. The result lists, per index, the samples of the sightings close
 * enough to the segment.
 */
module Segment {
  import opened Wrappers
  import opened Grid
  import opened Geometry
  import opened Landmarks
  import opened UnitIndex
  import opened Scanning

  // ---------------------------------------------------------------------------------------
  // Sightings

  /** A landmark met from a sample: the cell, the sample's number and the distance to the unit it covers. */
  datatype Sighting = Sighting(cell: Cell, sample: int, distance: int)

  /** The search of one segment: its ends, the search radius and the cell indices to leave out. */
  datatype SegmentSearch = SegmentSearch(start: Pos, end: Pos, radius: int, exclude: Option<set<int>>)

  /** The Chebyshev length of an offset: how far from the sample the searched unit is. */
  function Chebyshev(d: (int, int)): nat {
    if Geometry.Abs(d.0) >= Geometry.Abs(d.1) then Geometry.Abs(d.0) else Geometry.Abs(d.1)
  }

  /** A good landmark whose index is not excluded. */
  predicate Qualifies(c: Cell, exclude: Option<set<int>>) {
    IsLandmark(c) && IsGoodLandmark(c) && (exclude.None? || c.idx !in exclude.value)
  }

  /** The sightings of the qualifying cells of `list` from sample `i` at distance `dist`, in list order. */
  function SightingsIn(list: seq<Cell>, exclude: Option<set<int>>, i: int, dist: int): (r: seq<Sighting>)
    ensures forall s :: s in r <==> s.cell in list && Qualifies(s.cell, exclude) && s.sample == i && s.distance == dist
  {
    if list == [] then []
    else
      var last := list[|list| - 1];
      assert forall c :: c in list <==> c in list[..|list| - 1] || c == last;
      SightingsIn(list[..|list| - 1], exclude, i, dist) +
        if Qualifies(last, exclude) then [Sighting(last, i, dist)] else []
  }

  /** What sample `i`, at `point`, sees at offset d: nothing at the sample itself. */
  function SightingsAt(cells: seq<Cell>, point: Pos, i: int, exclude: Option<set<int>>, d: (int, int)): seq<Sighting> {
    if d.0 == 0 && d.1 == 0 then []
    else SightingsIn(CellsAt(cells, Offset(point, d.0, d.1)), exclude, i, Chebyshev(d))
  }

  function SightingsFn(cells: seq<Cell>, point: Pos, i: int, exclude: Option<set<int>>): ((int, int)) -> seq<Sighting> {
    (d: (int, int)) => SightingsAt(cells, point, i, exclude, d)
  }

  /** `SightingsAt`, with the cells of each unit read from a unit index instead. */
  function IndexedSightingsAt(index: map<Pos, seq<Cell>>, point: Pos, i: int, exclude: Option<set<int>>, d: (int, int)): seq<Sighting> {
    if d.0 == 0 && d.1 == 0 then []
    else SightingsIn(Units(index, Offset(point, d.0, d.1)), exclude, i, Chebyshev(d))
  }

  function IndexedSightingsFn(index: map<Pos, seq<Cell>>, point: Pos, i: int, exclude: Option<set<int>>): ((int, int)) -> seq<Sighting> {
    (d: (int, int)) => IndexedSightingsAt(index, point, i, exclude, d)
  }

  /** The sample of the search numbered i (0 when the segment has no length). */
  function SearchPoint(q: SegmentSearch, i: int): Pos {
    var L := MoveLength(q.start, q.end);
    if L > 0 then SamplePoint(q.start, q.end, i, L) else q.start
  }

  /** All that sample `i` sees, offset by offset. */
  function SampleSightings(cells: seq<Cell>, q: SegmentSearch, i: int): seq<Sighting> {
    SquareScan(SightingsFn(cells, SearchPoint(q, i), i, q.exclude), q.radius)
  }

  function SampleSightingsFn(cells: seq<Cell>, q: SegmentSearch): int -> seq<Sighting> {
    (i: int) => SampleSightings(cells, q, i)
  }

  /** All that the samples of the segment see, sample by sample. */
  function SegmentSightings(cells: seq<Cell>, q: SegmentSearch): seq<Sighting> {
    Samples(SampleSightingsFn(cells, q), MoveLength(q.start, q.end) + 1)
  }

  /** A unit index that agrees with the grid sees the same from every sample. */
  lemma IndexedSightingsAgree(index: map<Pos, seq<Cell>>, cells: seq<Cell>, point: Pos, i: int, exclude: Option<set<int>>, radius: int)
    requires forall pos :: Units(index, pos) == CellsAt(cells, pos)
    ensures SquareScan(IndexedSightingsFn(index, point, i, exclude), radius) == SquareScan(SightingsFn(cells, point, i, exclude), radius)
  {
    var f := IndexedSightingsFn(index, point, i, exclude);
    var g := SightingsFn(cells, point, i, exclude);
    forall d
      ensures f(d) == g(d)
    {
      assert Units(index, Offset(point, d.0, d.1)) == CellsAt(cells, Offset(point, d.0, d.1));
    }
    ColumnsAgree(f, g, radius, radius + 1);
  }

  /** Every sighting is of a qualifying cell covering a unit of the square around one of the samples. */
  lemma SightingSound(cells: seq<Cell>, q: SegmentSearch, s: Sighting) returns (dx: int, dy: int)
    requires s in SegmentSightings(cells, q)
    ensures 0 <= s.sample <= MoveLength(q.start, q.end)
    ensures -q.radius <= dx <= q.radius && -q.radius <= dy <= q.radius && !(dx == 0 && dy == 0)
    ensures s.cell in CellsAt(cells, Offset(SearchPoint(q, s.sample), dx, dy)) && Qualifies(s.cell, q.exclude)
    ensures s.distance == Chebyshev((dx, dy))
  {
    var g := SampleSightingsFn(cells, q);
    SamplesMember(g, MoveLength(q.start, q.end) + 1, s);
    var i :| 0 <= i < MoveLength(q.start, q.end) + 1 && s in g(i);
    var at := SightingsFn(cells, SearchPoint(q, i), i, q.exclude);
    dx, dy := ScanHit(at, q.radius, s);
    SightingAtSound(cells, SearchPoint(q, i), i, q.exclude, (dx, dy), s);
  }

  lemma SightingAtSound(cells: seq<Cell>, point: Pos, i: int, exclude: Option<set<int>>, d: (int, int), s: Sighting)
    requires s in SightingsFn(cells, point, i, exclude)(d)
    ensures !(d.0 == 0 && d.1 == 0)
    ensures s.cell in CellsAt(cells, Offset(point, d.0, d.1)) && Qualifies(s.cell, exclude)
    ensures s.sample == i && s.distance == Chebyshev(d)
  {
  }

  /** Every qualifying cell covering a unit of the square around a sample is sighted from it. */
  lemma SightingComplete(cells: seq<Cell>, q: SegmentSearch, i: int, dx: int, dy: int, c: Cell)
    requires 0 <= i <= MoveLength(q.start, q.end)
    requires -q.radius <= dx <= q.radius && -q.radius <= dy <= q.radius && !(dx == 0 && dy == 0)
    requires c in CellsAt(cells, Offset(SearchPoint(q, i), dx, dy)) && Qualifies(c, q.exclude)
    ensures Sighting(c, i, Chebyshev((dx, dy))) in SegmentSightings(cells, q)
  {
    var s := Sighting(c, i, Chebyshev((dx, dy)));
    var at := SightingsFn(cells, SearchPoint(q, i), i, q.exclude);
    assert s in at((dx, dy));
    HitScanned(at, q.radius, dx, dy, s);
    var g := SampleSightingsFn(cells, q);
    assert s in g(i);
    SamplesMember(g, MoveLength(q.start, q.end) + 1, s);
  }

  /** Sample numbers that never decrease along the sequence. */
  predicate InSampleOrder(hits: seq<Sighting>) {
    forall j, k | 0 <= j < k < |hits| :: hits[j].sample <= hits[k].sample
  }

  predicate SamplesBelow(hits: seq<Sighting>, n: int) {
    forall j | 0 <= j < |hits| :: 0 <= hits[j].sample < n
  }

  lemma AppendSample(a: seq<Sighting>, b: seq<Sighting>, n: int)
    requires InSampleOrder(a) && SamplesBelow(a, n) && n >= 0
    requires forall j | 0 <= j < |b| :: b[j].sample == n
    ensures InSampleOrder(a + b) && SamplesBelow(a + b, n + 1)
  {
  }

  /** What sample i sees is seen from sample i. */
  lemma SampleSightingsNumbered(cells: seq<Cell>, q: SegmentSearch, i: int)
    ensures forall j | 0 <= j < |SampleSightingsFn(cells, q)(i)| :: SampleSightingsFn(cells, q)(i)[j].sample == i
  {
    var at := SightingsFn(cells, SearchPoint(q, i), i, q.exclude);
    var found := SampleSightingsFn(cells, q)(i);
    forall j | 0 <= j < |found|
      ensures found[j].sample == i
    {
      var dx, dy := ScanHit(at, q.radius, found[j]);
      SightingAtSound(cells, SearchPoint(q, i), i, q.exclude, (dx, dy), found[j]);
    }
  }

  /** The sightings come sample by sample: their sample numbers never decrease. */
  lemma SightingsInSampleOrder(cells: seq<Cell>, q: SegmentSearch, n: int)
    requires n >= 0
    ensures InSampleOrder(Samples(SampleSightingsFn(cells, q), n))
    ensures SamplesBelow(Samples(SampleSightingsFn(cells, q), n), n)
  {
    var g := SampleSightingsFn(cells, q);
    forall i | 0 <= i < n
      ensures forall j | 0 <= j < |g(i)| :: g(i)[j].sample == i
    {
      SampleSightingsNumbered(cells, q, i);
    }
    NumberedInSampleOrder(g, n);
  }

  /** Samples whose every sighting carries its own sample number come in sample order. */
  lemma {:induction false} NumberedInSampleOrder(g: int -> seq<Sighting>, n: int)
    requires n >= 0
    requires forall i, j | 0 <= i < n && 0 <= j < |g(i)| :: g(i)[j].sample == i
    ensures InSampleOrder(Samples(g, n)) && SamplesBelow(Samples(g, n), n)
    decreases n
  {
    if n > 0 {
      NumberedInSampleOrder(g, n - 1);
      AppendSample(Samples(g, n - 1), g(n - 1), n - 1);
    }
  }

  // ---------------------------------------------------------------------------------------
  // The table of appearances

  /** What is recorded for one cell index: the cell first met, its side, and the sample and distance of each sighting. */
  datatype Appearance = Appearance(cell: Cell, side: Side, positions: seq<int>, distances: seq<int>)

  /** The recorded indices in the order they were first met, and what is recorded for each. */
  datatype Table = Table(order: seq<int>, entries: map<int, Appearance>)

  const EmptyTable := Table([], map[])

  /** The side of a landmark for the segment: from the landmark's own unit, taken segment-wise on long segments. */
  function SideFor(q: SegmentSearch, isLong: bool, c: Cell): Side {
    CalculateLandmarkSideHybrid(q.start, q.end, (c.col, c.row), isLong, false)
  }

  /** Records one sighting: a new entry for an index met the first time, else its sample and distance appended. */
  function Record(t: Table, s: Sighting, side: Side): Table {
    var k := s.cell.idx;
    if k in t.entries then
      var e := t.entries[k];
      Table(t.order, t.entries[k := e.(positions := e.positions + [s.sample], distances := e.distances + [s.distance])])
    else
      Table(t.order + [k], t.entries[k := Appearance(s.cell, side, [s.sample], [s.distance])])
  }

  /** The table `t` after recording `hits` one after the other. */
  function TabulateFrom(t: Table, hits: seq<Sighting>, q: SegmentSearch, isLong: bool): Table {
    if hits == [] then t
    else
      var last := hits[|hits| - 1];
      Record(TabulateFrom(t, hits[..|hits| - 1], q, isLong), last, SideFor(q, isLong, last.cell))
  }

  /** The table after recording `hits`, starting from none. */
  function Tabulate(hits: seq<Sighting>, q: SegmentSearch, isLong: bool): Table {
    TabulateFrom(EmptyTable, hits, q, isLong)
  }

  /** Recording one more sighting. */
  lemma TabulateSnoc(t: Table, hits: seq<Sighting>, q: SegmentSearch, isLong: bool, s: Sighting)
    ensures TabulateFrom(t, hits + [s], q, isLong) == Record(TabulateFrom(t, hits, q, isLong), s, SideFor(q, isLong, s.cell))
  {
    assert (hits + [s])[..|hits|] == hits;
  }

  /** Recording two runs of sightings one after the other is recording them together. */
  lemma {:induction false} TabulateAppend(t: Table, a: seq<Sighting>, b: seq<Sighting>, q: SegmentSearch, isLong: bool)
    ensures TabulateFrom(TabulateFrom(t, a, q, isLong), b, q, isLong) == TabulateFrom(t, a + b, q, isLong)
  {
    if b == [] {
      assert a + b == a;
    } else {
      var init, last := b[..|b| - 1], b[|b| - 1];
      TabulateAppend(t, a, init, q, isLong);
      assert a + b == (a + init) + [last];
      TabulateSnoc(t, a + init, q, isLong, last);
    }
  }

  /** The cell of the first sighting of index k. */
  function FirstOf(hits: seq<Sighting>, k: int): (r: Option<Cell>)
    ensures r.Some? <==> exists s | s in hits :: s.cell.idx == k
    ensures r.Some? ==> r.value.idx == k && exists s | s in hits :: s.cell == r.value
  {
    if hits == [] then None
    else
      var init, last := hits[..|hits| - 1], hits[|hits| - 1];
      assert forall s :: s in hits <==> s in init || s == last;
      var f := FirstOf(init, k);
      if f.Some? then f else if last.cell.idx == k then Some(last.cell) else None
  }

  /** The samples of the sightings of index k, in order. */
  function PositionsOf(hits: seq<Sighting>, k: int): seq<int> {
    if hits == [] then []
    else
      var last := hits[|hits| - 1];
      PositionsOf(hits[..|hits| - 1], k) + if last.cell.idx == k then [last.sample] else []
  }

  /** The distances of the sightings of index k, in order. */
  function DistancesOf(hits: seq<Sighting>, k: int): (r: seq<int>)
    ensures |r| == |PositionsOf(hits, k)|
  {
    if hits == [] then []
    else
      var last := hits[|hits| - 1];
      DistancesOf(hits[..|hits| - 1], k) + if last.cell.idx == k then [last.distance] else []
  }

  /** The samples of the sightings of index k at most `filter` away, in order. */
  function NearPositionsOf(hits: seq<Sighting>, k: int, filter: int): (r: seq<int>)
    ensures forall p :: p in r <==> exists s | s in hits :: s.cell.idx == k && s.distance <= filter && s.sample == p
  {
    if hits == [] then []
    else
      var init, last := hits[..|hits| - 1], hits[|hits| - 1];
      assert forall s :: s in hits <==> s in init || s == last;
      NearPositionsOf(init, k, filter) + if last.cell.idx == k && last.distance <= filter then [last.sample] else []
  }

  /** The entry for index k: recorded exactly when k was sighted, holding its first cell and all its samples and distances. */
  lemma {:induction false} TabulateEntry(hits: seq<Sighting>, q: SegmentSearch, isLong: bool, k: int)
    ensures k in Tabulate(hits, q, isLong).entries <==> FirstOf(hits, k).Some?
    ensures k in Tabulate(hits, q, isLong).entries ==>
      var c := FirstOf(hits, k).value;
      Tabulate(hits, q, isLong).entries[k] == Appearance(c, SideFor(q, isLong, c), PositionsOf(hits, k), DistancesOf(hits, k))
  {
    if hits != [] {
      var init, last := hits[..|hits| - 1], hits[|hits| - 1];
      TabulateEntry(init, q, isLong, k);
      var t0 := Tabulate(init, q, isLong);
      assert Tabulate(hits, q, isLong) == Record(t0, last, SideFor(q, isLong, last.cell));
      if k in t0.entries {
        assert FirstOf(hits, k) == FirstOf(init, k);
      } else if last.cell.idx == k {
        assert FirstOf(hits, k) == Some(last.cell);
        assert PositionsOf(init, k) == [] && DistancesOf(init, k) == [] by {
          NothingRecorded(init, k);
        }
      }
    }
  }

  lemma {:induction false} NothingRecorded(hits: seq<Sighting>, k: int)
    requires FirstOf(hits, k).None?
    ensures PositionsOf(hits, k) == [] && DistancesOf(hits, k) == []
  {
    if hits != [] {
      assert hits[|hits| - 1] in hits;
      NothingRecorded(hits[..|hits| - 1], k);
    }
  }

  /** The order lists every recorded index once. */
  lemma {:induction false} TabulateOrder(hits: seq<Sighting>, q: SegmentSearch, isLong: bool)
    ensures forall k :: k in Tabulate(hits, q, isLong).order <==> k in Tabulate(hits, q, isLong).entries
    ensures forall i, j | 0 <= i < j < |Tabulate(hits, q, isLong).order| ::
      Tabulate(hits, q, isLong).order[i] != Tabulate(hits, q, isLong).order[j]
  {
    if hits != [] {
      TabulateOrder(hits[..|hits| - 1], q, isLong);
    }
  }

  // ---------------------------------------------------------------------------------------
  // The report

  /** Of the first n positions, those whose distance is at most `filter`, in order. */
  function NearUpTo(ps: seq<int>, ds: seq<int>, filter: int, n: int): seq<int>
    requires 0 <= n <= |ps| && n <= |ds|
  {
    if n == 0 then []
    else NearUpTo(ps, ds, filter, n - 1) + if ds[n - 1] <= filter then [ps[n - 1]] else []
  }

  /** The positions whose distance is at most `filter`, pairing the two lists up to the shorter one. */
  function NearPositions(ps: seq<int>, ds: seq<int>, filter: int): seq<int> {
    NearUpTo(ps, ds, filter, Geometry.Min(|ps|, |ds|))
  }

  lemma {:induction false} NearUpToPrefix(ps: seq<int>, ds: seq<int>, ps': seq<int>, ds': seq<int>, filter: int, n: int)
    requires 0 <= n <= |ps| && n <= |ds| && ps <= ps' && ds <= ds'
    ensures NearUpTo(ps, ds, filter, n) == NearUpTo(ps', ds', filter, n)
  {
    if n > 0 {
      NearUpToPrefix(ps, ds, ps', ds', filter, n - 1);
    }
  }

  /** Filtering the recorded samples by the recorded distances keeps the samples of the near sightings. */
  lemma {:induction false} NearPositionsRecorded(hits: seq<Sighting>, k: int, filter: int)
    ensures NearPositions(PositionsOf(hits, k), DistancesOf(hits, k), filter) == NearPositionsOf(hits, k, filter)
  {
    if hits != [] {
      var init, last := hits[..|hits| - 1], hits[|hits| - 1];
      NearPositionsRecorded(init, k, filter);
      var ps, ds := PositionsOf(init, k), DistancesOf(init, k);
      if last.cell.idx == k {
        var ps', ds' := ps + [last.sample], ds + [last.distance];
        assert PositionsOf(hits, k) == ps' && DistancesOf(hits, k) == ds';
        NearUpToPrefix(ps, ds, ps', ds', filter, |ps|);
        assert NearPositions(ps', ds', filter) == NearUpTo(ps', ds', filter, |ps|) + if last.distance <= filter then [last.sample] else [];
      } else {
        assert PositionsOf(hits, k) == ps && DistancesOf(hits, k) == ds;
      }
    }
  }

  /** The report on one entry: nothing when no sighting was near, else the landmark with its near samples and coverage. */
  function Covered(e: Appearance, L: int, filter: int): seq<LandmarkWithCoverage>
    requires L > 0
  {
    var near := NearPositions(e.positions, e.distances, filter);
    if near == [] then []
    else [LandmarkWithCoverage(e.cell, e.side, |set p | p in near| as real / L as real, near)]
  }

  /** The reports on the first n recorded indices, in the order they were first met. */
  function Report(t: Table, L: int, filter: int, n: int): seq<LandmarkWithCoverage>
    requires L > 0 && 0 <= n <= |t.order|
  {
    if n == 0 then []
    else
      var k := t.order[n - 1];
      Report(t, L, filter, n - 1) + if k in t.entries then Covered(t.entries[k], L, filter) else []
  }

  function LandmarkIdx(lm: LandmarkWithCoverage): int {
    lm.cell.idx
  }

  /** Every report comes from the entry of one of the first n indices. */
  lemma {:induction false} ReportFrom(t: Table, L: int, filter: int, n: int, lm: LandmarkWithCoverage) returns (j: int)
    requires L > 0 && 0 <= n <= |t.order| && lm in Report(t, L, filter, n)
    ensures 0 <= j < n && t.order[j] in t.entries && lm in Covered(t.entries[t.order[j]], L, filter)
  {
    var k := t.order[n - 1];
    if lm in Report(t, L, filter, n - 1) {
      j := ReportFrom(t, L, filter, n - 1, lm);
    } else {
      j := n - 1;
    }
  }

  /** Every entry of the first n indices with a near sighting is reported. */
  lemma {:induction false} ReportHas(t: Table, L: int, filter: int, n: int, j: int)
    requires L > 0 && 0 <= j < n <= |t.order| && t.order[j] in t.entries
    ensures Covered(t.entries[t.order[j]], L, filter) != [] ==> Covered(t.entries[t.order[j]], L, filter)[0] in Report(t, L, filter, n)
  {
    if j < n - 1 {
      ReportHas(t, L, filter, n - 1, j);
    }
  }

  /** Reports on distinct indices whose entries hold cells of those indices are about distinct cells. */
  lemma {:induction false} ReportDistinct(t: Table, L: int, filter: int, n: int)
    requires L > 0 && 0 <= n <= |t.order|
    requires forall i, j | 0 <= i < j < |t.order| :: t.order[i] != t.order[j]
    requires forall k | k in t.entries :: t.entries[k].cell.idx == k
    ensures DistinctBy(Report(t, L, filter, n), LandmarkIdx)
  {
    if n > 0 {
      ReportDistinct(t, L, filter, n - 1);
      var prefix := Report(t, L, filter, n - 1);
      var k := t.order[n - 1];
      forall lm | lm in prefix
        ensures lm.cell.idx != k
      {
        var j := ReportFrom(t, L, filter, n - 1, lm);
      }
    }
  }

  /** The samples of the near sightings of one index inherit the order and range of the sightings. */
  lemma {:induction false} NearPositionsInOrder(hits: seq<Sighting>, k: int, filter: int, n: int)
    requires InSampleOrder(hits) && SamplesBelow(hits, n)
    ensures forall a, b | 0 <= a < b < |NearPositionsOf(hits, k, filter)| ::
      NearPositionsOf(hits, k, filter)[a] <= NearPositionsOf(hits, k, filter)[b]
    ensures forall p | p in NearPositionsOf(hits, k, filter) :: 0 <= p < n
  {
    if hits != [] {
      var init, last := hits[..|hits| - 1], hits[|hits| - 1];
      NearPositionsInOrder(init, k, filter, n);
      var ps := NearPositionsOf(init, k, filter);
      forall p | p in ps
        ensures p <= last.sample
      {
        var s :| s in init && s.cell.idx == k && s.distance <= filter && s.sample == p;
        var j :| 0 <= j < |init| && init[j] == s;
        assert hits[j] == s;
      }
      var all := NearPositionsOf(hits, k, filter);
      assert all == ps + if last.cell.idx == k && last.distance <= filter then [last.sample] else [];
      forall a, b | 0 <= a < b < |all|
        ensures all[a] <= all[b]
      {
        if b >= |ps| {
          assert all[a] == ps[a] && ps[a] in ps;
        }
      }
    }
  }

  // ---------------------------------------------------------------------------------------
  // The landmarks along a segment

  /** Whether the segment is long enough for the segment-wise side rule. */
  function IsLongSegment(config: NavigationConfig, L: int): bool {
    config.useHybridMethod && L >= config.longSegmentThreshold
  }

  /**
   * The landmarks along the segment: per cell index sighted, in the order first sighted,
   * the cell, its side, the samples of its sightings at most `distanceFilter` away and the
   * fraction of the segment's length those samples cover; an index without such a
   * sighting is left out, and a segment without length has none.
   */
  function IntermediateLandmarks(cells: seq<Cell>, q: SegmentSearch, config: NavigationConfig): seq<LandmarkWithCoverage> {
    var L := MoveLength(q.start, q.end);
    if L == 0 then []
    else
      var t := Tabulate(SegmentSightings(cells, q), q, IsLongSegment(config, L));
      Report(t, L, config.distanceFilter, |t.order|)
  }

  /** No two landmarks along a segment share a cell index, and a segment without length has none. */
  lemma IntermediateDistinct(cells: seq<Cell>, q: SegmentSearch, config: NavigationConfig)
    ensures DistinctBy(IntermediateLandmarks(cells, q, config), LandmarkIdx)
    ensures MoveLength(q.start, q.end) == 0 ==> IntermediateLandmarks(cells, q, config) == []
  {
    var L := MoveLength(q.start, q.end);
    if L > 0 {
      var hits := SegmentSightings(cells, q);
      var isLong := IsLongSegment(config, L);
      var t := Tabulate(hits, q, isLong);
      TabulateOrder(hits, q, isLong);
      forall k | k in t.entries
        ensures t.entries[k].cell.idx == k
      {
        TabulateEntry(hits, q, isLong, k);
      }
      ReportDistinct(t, L, config.distanceFilter, |t.order|);
    }
  }

  /** A landmark along the segment, its entry in the table and its near samples. */
  lemma IntermediateEntry(cells: seq<Cell>, q: SegmentSearch, config: NavigationConfig, lm: LandmarkWithCoverage)
    returns (s: Sighting)
    requires lm in IntermediateLandmarks(cells, q, config)
    ensures MoveLength(q.start, q.end) > 0
    ensures s in SegmentSightings(cells, q) && s.cell == lm.cell
    ensures lm.side == SideFor(q, IsLongSegment(config, MoveLength(q.start, q.end)), lm.cell)
    ensures lm.pathPositions == NearPositionsOf(SegmentSightings(cells, q), lm.cell.idx, config.distanceFilter) != []
    ensures lm.coverageRatio == |set p | p in lm.pathPositions| as real / MoveLength(q.start, q.end) as real
  {
    var L := MoveLength(q.start, q.end);
    var hits := SegmentSightings(cells, q);
    var isLong := IsLongSegment(config, L);
    var t := Tabulate(hits, q, isLong);
    var j := ReportFrom(t, L, config.distanceFilter, |t.order|, lm);
    var k := t.order[j];
    TabulateEntry(hits, q, isLong, k);
    NearPositionsRecorded(hits, k, config.distanceFilter);
    var c := FirstOf(hits, k).value;
    s :| s in hits && s.cell == c;
  }

  /**
   * Every landmark along the segment is a qualifying cell covering a unit of the search
   * square around one of the samples; its side is its side for the segment; its samples
   * are exactly those of the sightings of its index at most `distanceFilter` away, in
   * sample order, and its coverage is the number of distinct samples over the length.
   */
  lemma IntermediateSound(cells: seq<Cell>, q: SegmentSearch, config: NavigationConfig, lm: LandmarkWithCoverage)
    returns (i: int, dx: int, dy: int)
    requires lm in IntermediateLandmarks(cells, q, config)
    ensures 0 <= i <= MoveLength(q.start, q.end)
    ensures -q.radius <= dx <= q.radius && -q.radius <= dy <= q.radius && !(dx == 0 && dy == 0)
    ensures lm.cell in CellsAt(cells, Offset(SearchPoint(q, i), dx, dy)) && Qualifies(lm.cell, q.exclude)
    ensures lm.side == SideFor(q, IsLongSegment(config, MoveLength(q.start, q.end)), lm.cell)
    ensures lm.pathPositions != []
    ensures lm.coverageRatio == |set p | p in lm.pathPositions| as real / MoveLength(q.start, q.end) as real
    ensures forall p :: p in lm.pathPositions <==> exists s | s in SegmentSightings(cells, q) ::
      s.cell.idx == lm.cell.idx && s.distance <= config.distanceFilter && s.sample == p
  {
    var s := IntermediateEntry(cells, q, config, lm);
    i := s.sample;
    dx, dy := SightingSound(cells, q, s);
  }

  /** The samples of a landmark along the segment never decrease and lie between 0 and the length. */
  lemma IntermediatePositionsInOrder(cells: seq<Cell>, q: SegmentSearch, config: NavigationConfig, lm: LandmarkWithCoverage)
    requires lm in IntermediateLandmarks(cells, q, config)
    ensures forall a, b | 0 <= a < b < |lm.pathPositions| :: lm.pathPositions[a] <= lm.pathPositions[b]
    ensures forall p | p in lm.pathPositions :: 0 <= p <= MoveLength(q.start, q.end)
  {
    var s := IntermediateEntry(cells, q, config, lm);
    var n := MoveLength(q.start, q.end) + 1;
    SightingsInSampleOrder(cells, q, n);
    NearPositionsInOrder(SegmentSightings(cells, q), lm.cell.idx, config.distanceFilter, n);
  }

  /** Every landmark along the segment was seen from at least one sample. */
  lemma IntermediateAllSeen(cells: seq<Cell>, q: SegmentSearch, config: NavigationConfig)
    ensures AllSeen(IntermediateLandmarks(cells, q, config))
  {
    forall lm | lm in IntermediateLandmarks(cells, q, config)
      ensures lm.pathPositions != []
    {
      var _ := IntermediateEntry(cells, q, config, lm);
    }
  }

  /**
   * The coverage of a landmark along the segment is positive and at most (L + 1) / L: it
   * can exceed 1, since the L + 1 samples include both ends.
   */
  lemma IntermediateCoverageBound(cells: seq<Cell>, q: SegmentSearch, config: NavigationConfig, lm: LandmarkWithCoverage)
    requires lm in IntermediateLandmarks(cells, q, config)
    ensures 0.0 < lm.coverageRatio <= (MoveLength(q.start, q.end) + 1) as real / MoveLength(q.start, q.end) as real
  {
    var L := MoveLength(q.start, q.end);
    var _ := IntermediateEntry(cells, q, config, lm);
    IntermediatePositionsInOrder(cells, q, config, lm);
    var positions := set p | p in lm.pathPositions;
    assert lm.pathPositions[0] in positions;
    RangeBound(positions, L);
    RatioBound(|positions|, L);
  }

  /** A set of numbers between 0 and n has at most n + 1 elements. */
  lemma {:induction false} RangeBound(s: set<int>, n: int)
    requires n >= -1
    requires forall p | p in s :: 0 <= p <= n
    ensures |s| <= n + 1
    decreases n + 1
  {
    if n >= 0 {
      RangeBound(s - {n}, n - 1);
      assert s <= (s - {n}) + {n};
    } else {
      assert forall y :: y !in s;
      assert s == {};
    }
  }

  lemma RatioBound(k: int, L: int)
    requires 1 <= k <= L + 1 && L > 0
    ensures 0.0 < k as real / L as real <= (L + 1) as real / L as real
  {
  }

  /**
   * Every qualifying cell covering a unit at most `distanceFilter` away from a sample,
   * within the search square, is a landmark along the segment with that sample among its
   * samples.
   */
  lemma IntermediateComplete(cells: seq<Cell>, q: SegmentSearch, config: NavigationConfig, i: int, dx: int, dy: int, c: Cell)
    returns (lm: LandmarkWithCoverage)
    requires 0 <= i <= MoveLength(q.start, q.end) && MoveLength(q.start, q.end) > 0
    requires -q.radius <= dx <= q.radius && -q.radius <= dy <= q.radius && !(dx == 0 && dy == 0)
    requires Chebyshev((dx, dy)) <= config.distanceFilter
    requires c in CellsAt(cells, Offset(SearchPoint(q, i), dx, dy)) && Qualifies(c, q.exclude)
    ensures lm in IntermediateLandmarks(cells, q, config) && lm.cell.idx == c.idx && i in lm.pathPositions
  {
    var L := MoveLength(q.start, q.end);
    var hits := SegmentSightings(cells, q);
    var isLong := IsLongSegment(config, L);
    var t := Tabulate(hits, q, isLong);
    var s := Sighting(c, i, Chebyshev((dx, dy)));
    SightingComplete(cells, q, i, dx, dy, c);
    var k := c.idx;
    TabulateEntry(hits, q, isLong, k);
    TabulateOrder(hits, q, isLong);
    var j :| 0 <= j < |t.order| && t.order[j] == k;
    NearPositionsRecorded(hits, k, config.distanceFilter);
    assert i in NearPositionsOf(hits, k, config.distanceFilter);
    ReportHas(t, L, config.distanceFilter, |t.order|, j);
    lm := Covered(t.entries[k], L, config.distanceFilter)[0];
  }

  /**
   * The second half of `find_intermediate_landmarks_with_coverage`: for each recorded index
   * in the order first met, the samples whose distance passes the filter, and when there
   * are any, the landmark with their coverage over the length L.
   */
  method ReportAppearances(t: Table, L: int, filter: int) returns (r: seq<LandmarkWithCoverage>)
    requires L > 0
    ensures r == Report(t, L, filter, |t.order|)
  {
    r := [];
    for j := 0 to |t.order|
      invariant r == Report(t, L, filter, j)
    {
      var k := t.order[j];
      if k in t.entries {
        var e := t.entries[k];
        var near: seq<int> := [];
        for m := 0 to Geometry.Min(|e.positions|, |e.distances|)
          invariant near == NearUpTo(e.positions, e.distances, filter, m)
        {
          if e.distances[m] <= filter {
            near := near + [e.positions[m]];
          }
        }
        if near != [] {
          var length := CalculateCoverageLength(near);
          r := r + [LandmarkWithCoverage(e.cell, e.side, length as real / L as real, near)];
        }
      }
    }
  }
}
