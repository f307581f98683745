/**
 * The rule-based wording of the navigation steps (core/navigation.py, `RuleFormatter`).
 *
 * Each step becomes at most one Chinese sentence. A continue step is worded by its length
 * in grid units: up to 3 units by the booths walked past, up to 15 by one landmark along
 * the way, beyond that by up to three landmarks on one side or ahead. With the unit path
 * and an analyser at hand, the booths are counted along the leg and the landmarks are
 * searched along it; without them, the wording falls back to an estimate from the length.
 */
module RuleFormatting {
  import opened Wrappers
  import opened Grid
  import opened Geometry
  import opened Landmarks
  import opened UnitIndex
  import opened Scanning
  import opened Nearby
  import opened Segment
  import opened Crossing
  import opened RouteSteps
  import opened RouteAnalysis

  // ---------------------------------------------------------------------------------------
  // Numbers and names as text

  /** The digit `d` as a character. */
  function DigitChar(d: int): char
    requires 0 <= d < 10
  {
    "0123456789"[d]
  }

  /** The value of a digit character. */
  function DigitValue(c: char): int {
    c as int - '0' as int
  }

  /** The decimal digits of `n`, without leading zeros. */
  function NatText(n: nat): (r: string)
    ensures r != [] && forall i | 0 <= i < |r| :: '0' <= r[i] <= '9'
    decreases n
  {
    if n < 10 then [DigitChar(n)] else NatText(n / 10) + [DigitChar(n % 10)]
  }

  /** The number a string of decimal digits stands for. */
  function DigitsValue(s: string): int {
    if s == [] then 0 else DigitsValue(s[..|s| - 1]) * 10 + DigitValue(s[|s| - 1])
  }

  /** Reading the digits back gives the number, and only 0 is written with a leading zero. */
  lemma {:induction false} NatTextRoundTrip(n: nat)
    ensures DigitsValue(NatText(n)) == n
    ensures NatText(n)[0] == '0' <==> n == 0
    decreases n
  {
    if n >= 10 {
      NatTextRoundTrip(n / 10);
      var r := NatText(n);
      assert r[..|r| - 1] == NatText(n / 10);
    }
  }

  /** A whole number the way a format string writes it. */
  function IntText(n: int): string {
    if n < 0 then "-" + NatText(-n) else NatText(n)
  }

  /** A name the way a format string writes it: an absent name reads "None". */
  function NameText(name: Option<string>): string {
    if name.Some? then name.value else "None"
  }

  /** The side names with a wording of their own. */
  const SideTexts: map<string, string> := map["left" := "左手邊", "right" := "右手邊", "front" := "前方", "behind" := "後方"]

  /** `get_side_text`: the wording of a side name; any other name reads "nearby". */
  function GetSideText(side: string): (r: string)
    ensures r == "附近" <==> side !in SideTexts
    ensures side in SideTexts ==> r == SideTexts[side]
  {
    if side in SideTexts then SideTexts[side] else "附近"
  }

  /** Different sides of the walker are worded differently; the unknown side reads "nearby". */
  lemma SideTextsDistinct(a: Side, b: Side)
    ensures GetSideText(SideName(a)) == GetSideText(SideName(b)) <==> a == b
    ensures GetSideText(SideName(a)) == "附近" <==> a == Unknown
  {
    assert "左手邊" != "右手邊" && "左手邊" != "前方" && "右手邊" != "前方";
    assert "左手邊"[0] != "附近"[0] && "右手邊"[0] != "附近"[0] && "前方"[0] != "附近"[0] && "後方"[0] != "附近"[0];
    assert "後方"[0] != "左手邊"[0] && "後方"[0] != "右手邊"[0] && "後方"[0] != "前方"[0];
  }

  /** The names separated by "、". */
  function JoinAll(names: seq<string>): string {
    if names == [] then ""
    else if |names| == 1 then names[0]
    else JoinAll(names[..|names| - 1]) + "、" + names[|names| - 1]
  }

  /** `join_landmarks`: one, two or the first three names, separated by "、". */
  function JoinLandmarks(names: seq<string>): string
    requires |names| >= 1
  {
    if |names| == 1 then names[0]
    else if |names| == 2 then names[0] + "、" + names[1]
    else names[0] + "、" + names[1] + "、" + names[2]
  }

  /** At most three names are joined: exactly the first ones, in order, each once. */
  lemma JoinLandmarksFirstThree(names: seq<string>)
    requires |names| >= 1
    ensures JoinLandmarks(names) == JoinAll(names[..Min(3, |names|)])
  {
    var k := Min(3, |names|);
    var first := names[..k];
    if k >= 2 {
      assert first[..1] == [names[0]];
      assert JoinAll(first[..2]) == names[0] + "、" + names[1] by {
        assert first[..2][..1] == [names[0]];
      }
      if k == 3 {
        assert first[..3] == first;
        assert first[..2] == names[..2];
      }
    }
  }

  /** `format_landmark`: the landmark's side, then its name. */
  function FormatLandmark(l: LandmarkInfo): string {
    GetSideText(SideName(l.side)) + "的 " + NameText(l.name)
  }

  /** The name an action goes by in a step record. */
  function ActionName(a: Action): string {
    match a
    case Orient => "orient"
    case Continue => "continue"
    case TurnTo(d) => if d == TurnLeft then "turn_left" else if d == TurnRight then "turn_right" else "turn_straight"
    case Arrive => "arrive"
  }

  /** The actions with a wording of their own. */
  const ActionTexts: map<string, string> :=
    map["orient" := "面向", "turn_left" := "左轉", "turn_right" := "右轉", "continue" := "繼續直走", "arrive" := "到達目的地"]

  /** `format_action`: the wording of an action; an action without one keeps its record name. */
  function FormatAction(a: Action): (r: string)
    ensures ActionName(a) !in ActionTexts ==> r == ActionName(a)
  {
    var n := ActionName(a);
    if n in ActionTexts then ActionTexts[n] else n
  }

  /** Different actions are worded differently. */
  lemma FormatActionDistinct(a: Action, b: Action)
    requires a != b
    ensures FormatAction(a) != FormatAction(b)
  {
    assert "面向"[0] != "左轉"[0] && "面向"[0] != "右轉"[0] && "面向"[0] != "繼續直走"[0] && "面向"[0] != "到達目的地"[0];
    assert "左轉"[0] != "右轉"[0] && "左轉"[0] != "繼續直走"[0] && "左轉"[0] != "到達目的地"[0];
    assert "右轉"[0] != "繼續直走"[0] && "右轉"[0] != "到達目的地"[0] && "繼續直走"[0] != "到達目的地"[0];
    assert "turn_straight"[0] !in {'面', '左', '右', '繼', '到'};
  }

  // ---------------------------------------------------------------------------------------
  // Booth counts

  /**
   * `units_to_booth_count`: about one booth per 2.5 units, rounded to the nearest whole
   * number (there is never a tie) and at least one.
   */
  function UnitsToBoothCount(units: int): (r: int)
    ensures r >= 1
    ensures r == 1 <==> 4 * units < 15
    ensures r > 1 ==> -5 < 10 * r - 4 * units < 5
  {
    var t := 4 * units + 5;
    var q := t / 10;
    assert 10 * q <= t < 10 * q + 10;
    assert 10 * q != t by {
      var d := 5 * q - 2 * units;
      assert 2 * d != 5;
    }
    if q >= 1 then q else 1
  }

  /** The units beside a sample that are searched for booths: left, right, up, down. */
  const BoothOffsets: seq<(int, int)> := [(-1, 0), (1, 0), (0, -1), (0, 1)]

  /** A cell counted as a booth walked past: a booth that makes a good landmark. */
  predicate CountsAsBooth(c: Cell) {
    c.cellType == "booth" && IsGoodLandmark(c)
  }

  /** The booths of `list` that count, in list order. */
  function BoothsIn(list: seq<Cell>): (r: seq<Cell>)
    ensures forall c :: c in r <==> c in list && CountsAsBooth(c)
  {
    if list == [] then []
    else
      var last := list[|list| - 1];
      assert forall c :: c in list <==> c in list[..|list| - 1] || c == last;
      BoothsIn(list[..|list| - 1]) + if CountsAsBooth(last) then [last] else []
  }

  lemma BoothsStep(list: seq<Cell>, k: int)
    requires 0 <= k < |list|
    ensures BoothsIn(list[..k + 1]) == BoothsIn(list[..k]) + if CountsAsBooth(list[k]) then [list[k]] else []
  {
    assert list[..k + 1][..k] == list[..k];
  }

  /** The unit `k`-th of the searched units beside `p`. */
  function Beside(p: Pos, k: int): Pos
    requires 0 <= k < |BoothOffsets|
  {
    Offset(p, BoothOffsets[k].0, BoothOffsets[k].1)
  }

  /** The counted booths in the first k units beside `p`, the cells of each unit as `at` lists them. */
  function BoothsBeside(at: Pos -> seq<Cell>, p: Pos, k: int): seq<Cell>
    requires 0 <= k <= |BoothOffsets|
    decreases k
  {
    if k == 0 then [] else BoothsBeside(at, p, k - 1) + BoothsIn(at(Beside(p, k - 1)))
  }

  lemma {:induction false} BoothsBesideMember(at: Pos -> seq<Cell>, p: Pos, k: int, c: Cell)
    requires 0 <= k <= |BoothOffsets|
    ensures c in BoothsBeside(at, p, k) <==> CountsAsBooth(c) && exists j | 0 <= j < k :: c in at(Beside(p, j))
    decreases k
  {
    if k > 0 {
      BoothsBesideMember(at, p, k - 1, c);
    }
  }

  lemma {:induction false} BoothsBesideAgree(f: Pos -> seq<Cell>, g: Pos -> seq<Cell>, p: Pos, k: int)
    requires 0 <= k <= |BoothOffsets|
    requires forall j | 0 <= j < k :: f(Beside(p, j)) == g(Beside(p, j))
    ensures BoothsBeside(f, p, k) == BoothsBeside(g, p, k)
    decreases k
  {
    if k > 0 {
      BoothsBesideAgree(f, g, p, k - 1);
    }
  }

  /** The counted booths beside sample i of the segment from `start` to `end`. */
  function BoothsAt(at: Pos -> seq<Cell>, start: Pos, end: Pos, i: int): seq<Cell> {
    var L := MoveLength(start, end);
    if L > 0 then BoothsBeside(at, SamplePoint(start, end, i, L), |BoothOffsets|) else []
  }

  function BoothsFn(at: Pos -> seq<Cell>, start: Pos, end: Pos): int -> seq<Cell> {
    i => BoothsAt(at, start, end, i)
  }

  /** The cells of each unit, read from the grid. */
  function GridUnits(cells: seq<Cell>): Pos -> seq<Cell> {
    p => CellsAt(cells, p)
  }

  /** The cells of each unit, read from a unit index. */
  function IndexUnits(index: map<Pos, seq<Cell>>): Pos -> seq<Cell> {
    p => Units(index, p)
  }

  /** The cell indices of the booths counted along the segment from `start` to `end`; none for a segment without length. */
  function PassedBoothIdxs(at: Pos -> seq<Cell>, start: Pos, end: Pos): set<int> {
    var L := MoveLength(start, end);
    if L == 0 then {} else Keys(Samples(BoothsFn(at, start, end), L + 1), CellIdx)
  }

  /** `count_passed_booths`: the number of distinct booths beside the samples of the segment. */
  function PassedBooths(cells: seq<Cell>, start: Pos, end: Pos): nat {
    |PassedBoothIdxs(GridUnits(cells), start, end)|
  }

  /** A booth that counts covers a unit beside a sample of the segment. */
  predicate BoothBesideSample(cells: seq<Cell>, start: Pos, end: Pos, i: int, k: int, c: Cell) {
    && MoveLength(start, end) > 0 && 0 <= i <= MoveLength(start, end) && 0 <= k < |BoothOffsets|
    && c in cells && CountsAsBooth(c)
    && var u := Beside(SamplePoint(start, end, i, MoveLength(start, end)), k);
      Occupies(c, u.0, u.1)
  }

  /** Every counted cell index is that of a booth covering a unit beside one of the samples. */
  lemma PassedBoothSound(cells: seq<Cell>, start: Pos, end: Pos, idx: int) returns (i: int, k: int, c: Cell)
    requires idx in PassedBoothIdxs(GridUnits(cells), start, end)
    ensures BoothBesideSample(cells, start, end, i, k, c) && c.idx == idx
  {
    var L := MoveLength(start, end);
    assert L > 0;
    var at := GridUnits(cells);
    var g := BoothsFn(at, start, end);
    i, c := KeyedSample(g, L + 1, CellIdx, idx);
    var p := SamplePoint(start, end, i, L);
    assert g(i) == BoothsBeside(at, p, |BoothOffsets|);
    BoothsBesideMember(at, p, |BoothOffsets|, c);
    k :| 0 <= k < |BoothOffsets| && c in at(Beside(p, k));
  }

  /** A key of what a scan collects is the key of something found at one of the samples. */
  lemma KeyedSample<X>(g: int -> seq<X>, n: int, key: X -> int, k: int) returns (i: int, x: X)
    requires k in Keys(Samples(g, n), key)
    ensures 0 <= i < n && x in g(i) && key(x) == k
  {
    var s := Samples(g, n);
    var j :| 0 <= j < |s| && key(s[j]) == k;
    x := s[j];
    SamplesMember(g, n, x);
    i :| 0 <= i < n && x in g(i);
  }

  /** Every booth that counts and covers a unit beside one of the samples has its cell index counted. */
  lemma PassedBoothComplete(cells: seq<Cell>, start: Pos, end: Pos, i: int, k: int, c: Cell)
    requires BoothBesideSample(cells, start, end, i, k, c)
    ensures c.idx in PassedBoothIdxs(GridUnits(cells), start, end)
  {
    var L := MoveLength(start, end);
    var at := GridUnits(cells);
    var g := BoothsFn(at, start, end);
    var p := SamplePoint(start, end, i, L);
    assert c in at(Beside(p, k));
    BoothsBesideMember(at, p, |BoothOffsets|, c);
    assert c in g(i);
    SampleKeyed(g, L + 1, CellIdx, i, c);
  }

  /** Whatever is found at one of the samples has its key among the keys of the scan. */
  lemma SampleKeyed<X>(g: int -> seq<X>, n: int, key: X -> int, i: int, x: X)
    requires 0 <= i < n && x in g(i)
    ensures key(x) in Keys(Samples(g, n), key)
  {
    SamplesMember(g, n, x);
    var s := Samples(g, n);
    var j :| 0 <= j < |s| && s[j] == x;
    assert key(s[j]) == key(x);
  }

  /** A unit index that agrees with the grid counts the same booths. */
  lemma IndexedBoothsAgree(index: map<Pos, seq<Cell>>, cells: seq<Cell>, start: Pos, end: Pos)
    requires forall pos :: Units(index, pos) == CellsAt(cells, pos)
    ensures PassedBoothIdxs(IndexUnits(index), start, end) == PassedBoothIdxs(GridUnits(cells), start, end)
  {
    var f := BoothsFn(IndexUnits(index), start, end);
    var g := BoothsFn(GridUnits(cells), start, end);
    var L := MoveLength(start, end);
    forall i | 0 <= i < L + 1
      ensures f(i) == g(i)
    {
      if L > 0 {
        var p := SamplePoint(start, end, i, L);
        BoothsBesideAgree(IndexUnits(index), GridUnits(cells), p, |BoothOffsets|);
      }
    }
    SamplesAgree(f, g, L + 1);
  }

  /** `seen` holds the indices of the booths `visited`, and `count` is how many there are. */
  ghost predicate Counted(seen: set<int>, count: int, visited: seq<Cell>) {
    seen == Keys(visited, CellIdx) && count == |seen|
  }

  /** Counts the booths of one unit's list that are not counted yet. */
  method CountBoothsIn(list: seq<Cell>, seen: set<int>, count: int, ghost visited: seq<Cell>)
    returns (seen': set<int>, count': int)
    requires Counted(seen, count, visited)
    ensures Counted(seen', count', visited + BoothsIn(list))
  {
    seen', count' := seen, count;
    assert visited + BoothsIn(list[..0]) == visited by {
      assert list[..0] == [];
    }
    for k := 0 to |list|
      invariant Counted(seen', count', visited + BoothsIn(list[..k]))
    {
      var cell := list[k];
      ghost var before := visited + BoothsIn(list[..k]);
      BoothsStep(list, k);
      if CountsAsBooth(cell) {
        assert visited + BoothsIn(list[..k + 1]) == before + [cell];
        KeysSnoc(before, CellIdx, cell);
      } else {
        assert visited + BoothsIn(list[..k + 1]) == before;
      }
      if cell.cellType == "booth" && cell.idx !in seen' && IsGoodLandmark(cell) {
        seen' := seen' + {cell.idx};
        count' := count' + 1;
      }
    }
    assert list[..|list|] == list;
  }

  /** Counts the booths in the four units beside `pos` that are not counted yet. */
  method CountAround(index: map<Pos, seq<Cell>>, pos: Pos, seen: set<int>, count: int, ghost visited: seq<Cell>)
    returns (seen': set<int>, count': int)
    requires Counted(seen, count, visited)
    ensures Counted(seen', count', visited + BoothsBeside(IndexUnits(index), pos, |BoothOffsets|))
  {
    ghost var at := IndexUnits(index);
    seen', count' := seen, count;
    assert visited + BoothsBeside(at, pos, 0) == visited;
    for k := 0 to |BoothOffsets|
      invariant Counted(seen', count', visited + BoothsBeside(at, pos, k))
    {
      var sideOffset := BoothOffsets[k];
      var checkPos := (pos.0 + sideOffset.0, pos.1 + sideOffset.1);
      ghost var before := visited + BoothsBeside(at, pos, k);
      seen', count' := CountAtUnit(index, checkPos, seen', count', before);
      assert checkPos == Beside(pos, k) && at(checkPos) == Units(index, checkPos);
      AppendAssoc(visited, BoothsBeside(at, pos, k), BoothsIn(Units(index, checkPos)));
    }
  }

  /** Counts the booths of one unit, if the index has it, that are not counted yet. */
  method CountAtUnit(index: map<Pos, seq<Cell>>, checkPos: Pos, seen: set<int>, count: int, ghost visited: seq<Cell>)
    returns (seen': set<int>, count': int)
    requires Counted(seen, count, visited)
    ensures Counted(seen', count', visited + BoothsIn(Units(index, checkPos)))
  {
    if checkPos in index {
      seen', count' := CountBoothsIn(index[checkPos], seen, count, visited);
    } else {
      seen', count' := seen, count;
      assert visited + BoothsIn([]) == visited;
    }
  }

  /** The booths counted beside the L + 1 samples of a segment of length L, the cells read from a unit index. */
  method CountAlong(index: map<Pos, seq<Cell>>, start: Pos, end: Pos, L: int) returns (boothCount: int)
    requires L == MoveLength(start, end) > 0
    ensures boothCount == |PassedBoothIdxs(IndexUnits(index), start, end)|
  {
    ghost var at := IndexUnits(index);
    ghost var g := BoothsFn(at, start, end);
    ghost var visited: seq<Cell> := [];
    var seenBooths: set<int> := {};
    boothCount := 0;
    for i := 0 to L + 1
      invariant Counted(seenBooths, boothCount, visited)
      invariant visited == Samples(g, i)
    {
      seenBooths, boothCount := CountSample(index, start, end, L, i, seenBooths, boothCount, visited);
      SamplesStep(g, i);
      visited := visited + g(i);
    }
  }

  /** Counts the booths beside sample i that are not counted yet. */
  method CountSample(index: map<Pos, seq<Cell>>, start: Pos, end: Pos, L: int, i: int,
                     seen: set<int>, count: int, ghost visited: seq<Cell>)
    returns (seen': set<int>, count': int)
    requires L == MoveLength(start, end) > 0
    requires Counted(seen, count, visited)
    ensures Counted(seen', count', visited + BoothsFn(IndexUnits(index), start, end)(i))
  {
    var currentPos := SamplePoint(start, end, i, L);
    seen', count' := CountAround(index, currentPos, seen, count, visited);
    assert BoothsFn(IndexUnits(index), start, end)(i) == BoothsBeside(IndexUnits(index), currentPos, |BoothOffsets|);
  }

  /** `count_passed_booths`, through the analyser's unit index. */
  method CountPassedBooths(start: Pos, end: Pos, analyzer: RouteAnalyzer) returns (boothCount: int)
    requires analyzer.Valid()
    ensures boothCount == PassedBooths(analyzer.gridData, start, end)
  {
    var moveDir := Sub(end, start);
    if moveDir == (0, 0) {
      return 0;
    }
    var steps := MoveLength(start, end);
    boothCount := CountAlong(analyzer.unitToCells, start, end, steps);
    IndexedBoothsAgree(analyzer.unitToCells, analyzer.gridData, start, end);
  }

  // ---------------------------------------------------------------------------------------
  // Wording a distance

  /** The ending shared by every wording of a long distance. */
  const AboutTwoMinutes := "，約 2 分鐘"

  /** The booth count appended to a landmark, when it is more than one. */
  function AboutBooths(boothCount: int): string {
    if boothCount <= 1 then "" else "，約 " + IntText(boothCount) + " 個攤位"
  }

  /** `format_with_intermediate_landmarks`, given what the analyser finds along the leg. */
  function IntermediateText(crossing: seq<Cell>, withCoverage: seq<LandmarkWithCoverage>, boothCount: int): string {
    if crossing != [] then
      "直走穿越" + NameText(crossing[0].name) + AboutBooths(boothCount)
    else if withCoverage != [] then
      var best := FirstMaxBy(withCoverage, CoverageKey);
      "直走經過" + GetSideText(SideName(best.side)) + "的" + NameText(best.cell.name) + AboutBooths(boothCount)
    else "直走約 " + IntText(boothCount) + " 個攤位"
  }

  /**
   * A crossed large area is named first; otherwise a landmark of highest coverage along
   * the leg, with its side; the booth count is added whenever it is more than one.
   */
  lemma IntermediateTextNames(crossing: seq<Cell>, withCoverage: seq<LandmarkWithCoverage>, boothCount: int)
    ensures crossing != [] ==> IntermediateText(crossing, withCoverage, boothCount) == "直走穿越" + NameText(crossing[0].name) + AboutBooths(boothCount)
    ensures crossing == [] && withCoverage != [] ==>
      exists lm | lm in withCoverage ::
        && (forall other | other in withCoverage :: other.coverageRatio <= lm.coverageRatio)
        && IntermediateText(crossing, withCoverage, boothCount) ==
           "直走經過" + GetSideText(SideName(lm.side)) + "的" + NameText(lm.cell.name) + AboutBooths(boothCount)
    ensures crossing == [] && withCoverage == [] ==> IntermediateText(crossing, withCoverage, boothCount) == "直走約 " + IntText(boothCount) + " 個攤位"
  {
    if crossing == [] && withCoverage != [] {
      var best := FirstMaxBy(withCoverage, CoverageKey);
      assert forall other | other in withCoverage :: CoverageKey(other) <= CoverageKey(best);
    }
  }

  /** The names of a sequence's landmarks, in order. */
  function LandmarkNames(s: seq<LandmarkWithCoverage>): (r: seq<string>)
    ensures |r| == |s| && forall i | 0 <= i < |s| :: r[i] == NameText(s[i].cell.name)
  {
    seq(|s|, i requires 0 <= i < |s| => NameText(s[i].cell.name))
  }

  /** The wording of a sequence's side: the side text of its name. */
  function SequenceSideText(name: Option<SeqName>): string {
    if name.Some? then GetSideText(SeqNameText(name.value)) else "附近"
  }

  /** `format_with_multiple_landmarks`, given the sequence the analyser selects. */
  function MultipleText(sel: Selection): string {
    var s := sel.sequence;
    if s == [] then "直走到底" + AboutTwoMinutes
    else if sel.isFallback && sel.name.Some? && sel.name.value.ToFront? then
      if |s| >= 2 then
        "直走經過" + GetSideText(SeqNameText(sel.name.value.primary)) + "的" + NameText(s[0].cell.name) +
        "，走至" + NameText(s[1].cell.name) + "前" + AboutTwoMinutes
      else "直走走至" + NameText(s[0].cell.name) + "前" + AboutTwoMinutes
    else if sel.name == Some(Crossing) then
      var names := LandmarkNames(s);
      "直走穿越" + (if |names| == 1 then names[0] else JoinLandmarks(names)) + AboutTwoMinutes
    else if sel.name == Some(FrontSeq) then
      "直走走至" + JoinLandmarks(LandmarkNames(s)) + "前" + AboutTwoMinutes
    else "直走經過" + SequenceSideText(sel.name) + "的" + JoinLandmarks(LandmarkNames(s)) + AboutTwoMinutes
  }

  predicate EndsWith(s: string, suffix: string) {
    |suffix| <= |s| && s[|s| - |suffix|..] == suffix
  }

  lemma ConcatEndsWith(s: string, suffix: string)
    ensures EndsWith(s + suffix, suffix)
  {
    assert (s + suffix)[|s|..] == suffix;
  }

  /** Every wording of a long distance by landmarks ends with "about 2 minutes". */
  lemma MultipleTextTwoMinutes(sel: Selection)
    ensures EndsWith(MultipleText(sel), AboutTwoMinutes)
  {
    var s := sel.sequence;
    var t := MultipleText(sel);
    var body := t[..|t| - |AboutTwoMinutes|];
    assert |t| >= |AboutTwoMinutes|;
    ConcatEndsWith(body, AboutTwoMinutes);
    assert t == body + AboutTwoMinutes;
  }

  /** The landmarks along the leg from `start` to `end`, searched the way the formatter asks for them. */
  function LegLandmarks(analyzer: RouteAnalyzer, start: Pos, end: Pos, exclude: Option<set<int>>): (r: seq<LandmarkWithCoverage>)
    ensures AllSeen(r)
  {
    var q := SegmentSearch(start, end, analyzer.config.searchRadius, exclude);
    IntermediateAllSeen(analyzer.gridData, q, analyzer.config);
    IntermediateLandmarks(analyzer.gridData, q, analyzer.config)
  }

  /** The wording of a medium leg by one landmark. */
  function IntermediateFor(analyzer: RouteAnalyzer, start: Pos, end: Pos, boothCount: int, exclude: Option<set<int>>): string {
    IntermediateText(CrossingLandmarks(analyzer.gridData, start, end), LegLandmarks(analyzer, start, end, exclude), boothCount)
  }

  /** The wording of a long leg by a sequence of landmarks. */
  function MultipleFor(analyzer: RouteAnalyzer, start: Pos, end: Pos, exclude: Option<set<int>>): string {
    var seqs := ThreeSequences(LegLandmarks(analyzer, start, end, exclude), analyzer.config.maxLandmarksPerSide);
    MultipleText(SelectionFor(seqs, analyzer.config))
  }

  /** The wording of a short leg by its booth count. */
  function ShortText(boothCount: int): string {
    if boothCount == 0 then "走過一小段距離" else "走過 " + IntText(boothCount) + " 個攤位"
  }

  /**
   * `format_distance`: nothing for a leg of length 0; otherwise worded by length, from the
   * booths and landmarks along the leg when both ends and an analyser are given, from an
   * estimate otherwise.
   */
  function DistanceText(units: int, startPos: Option<Pos>, endPos: Option<Pos>, analyzer: RouteAnalyzer?, exclude: Option<set<int>>): string {
    if units == 0 then ""
    else
      var precise := startPos.Some? && endPos.Some? && analyzer != null;
      var boothCount := if precise then PassedBooths(analyzer.gridData, startPos.value, endPos.value) else UnitsToBoothCount(units);
      if units <= 3 then ShortText(boothCount)
      else if units <= 15 then
        if precise then IntermediateFor(analyzer, startPos.value, endPos.value, boothCount, exclude)
        else "直走約 " + IntText(boothCount) + " 個攤位"
      else if precise then MultipleFor(analyzer, startPos.value, endPos.value, exclude)
      else "直走較長距離" + AboutTwoMinutes
  }

  /** Only a leg of length 0 goes without words. */
  lemma DistanceTextEmpty(units: int, startPos: Option<Pos>, endPos: Option<Pos>, analyzer: RouteAnalyzer?, exclude: Option<set<int>>)
    ensures DistanceText(units, startPos, endPos, analyzer, exclude) == "" <==> units == 0
  {
    if units > 15 {
      LongDistanceTwoMinutes(units, startPos, endPos, analyzer, exclude);
    }
  }

  /** A leg longer than 15 units always takes "about 2 minutes", with or without landmarks. */
  lemma LongDistanceTwoMinutes(units: int, startPos: Option<Pos>, endPos: Option<Pos>, analyzer: RouteAnalyzer?, exclude: Option<set<int>>)
    requires units > 15
    ensures EndsWith(DistanceText(units, startPos, endPos, analyzer, exclude), AboutTwoMinutes)
  {
    if startPos.Some? && endPos.Some? && analyzer != null {
      var seqs := ThreeSequences(LegLandmarks(analyzer, startPos.value, endPos.value, exclude), analyzer.config.maxLandmarksPerSide);
      MultipleTextTwoMinutes(SelectionFor(seqs, analyzer.config));
    } else {
      ConcatEndsWith("直走較長距離", AboutTwoMinutes);
    }
  }

  /**
   * Without an analyser the wording is the estimate: one booth for legs up to 3 units, the
   * rounded count for legs up to 15, "a longer way" beyond.
   */
  lemma EstimatedDistanceText(units: int, exclude: Option<set<int>>)
    requires units != 0
    ensures units <= 3 ==> DistanceText(units, None, None, null, exclude) == "走過 " + IntText(UnitsToBoothCount(units)) + " 個攤位"
    ensures 0 < units <= 3 ==> UnitsToBoothCount(units) == 1
    ensures 3 < units <= 15 ==> DistanceText(units, None, None, null, exclude) == "直走約 " + IntText(UnitsToBoothCount(units)) + " 個攤位"
    ensures units > 15 ==> DistanceText(units, None, None, null, exclude) == "直走較長距離，約 2 分鐘"
  {
  }

  /** The examples of the distance wording: 1, 5 and 20 units without an analyser. */
  lemma DistanceExamples()
    ensures DistanceText(1, None, None, null, None) == "走過 1 個攤位"
    ensures DistanceText(5, None, None, null, None) == "直走約 2 個攤位"
    ensures DistanceText(20, None, None, null, None) == "直走較長距離，約 2 分鐘"
  {
  }

  // ---------------------------------------------------------------------------------------
  // The methods that word a distance

  /** The wording through the most important crossed large area. */
  method WordCrossing(landmark: Cell, boothCount: int) returns (text: string)
    ensures text == "直走穿越" + NameText(landmark.name) + AboutBooths(boothCount)
  {
    if boothCount <= 1 {
      return "直走穿越" + NameText(landmark.name);
    }
    return "直走穿越" + NameText(landmark.name) + "，約 " + IntText(boothCount) + " 個攤位";
  }

  /** The wording by the landmark of highest coverage, or by the count when there is none. */
  method WordAlongside(landmarksWithCoverage: seq<LandmarkWithCoverage>, boothCount: int) returns (text: string)
    ensures text == IntermediateText([], landmarksWithCoverage, boothCount)
  {
    if landmarksWithCoverage != [] {
      var bestLandmark := FirstMaxBy(landmarksWithCoverage, CoverageKey);
      var sideText := GetSideText(SideName(bestLandmark.side));
      if boothCount <= 1 {
        return "直走經過" + sideText + "的" + NameText(bestLandmark.cell.name);
      }
      return "直走經過" + sideText + "的" + NameText(bestLandmark.cell.name) + "，約 " + IntText(boothCount) + " 個攤位";
    }
    return "直走約 " + IntText(boothCount) + " 個攤位";
  }

  /** `format_with_intermediate_landmarks`: a crossed area first, else the landmark of highest coverage, else the count. */
  method FormatWithIntermediateLandmarks(units: int, start: Pos, end: Pos, analyzer: RouteAnalyzer, boothCount: int, exclude: Option<set<int>>)
    returns (text: string)
    requires analyzer.Valid()
    ensures text == IntermediateFor(analyzer, start, end, boothCount, exclude)
  {
    var crossing := analyzer.DetectCrossingLandmarks(start, end);
    if crossing != [] {
      text := WordCrossing(crossing[0], boothCount);
      return;
    }
    var landmarksWithCoverage := analyzer.FindIntermediateLandmarksWithCoverage(start, end, None, exclude);
    text := WordAlongside(landmarksWithCoverage, boothCount);
  }

  /** `format_with_multiple_landmarks`: the three sequences, the selection, then its wording. */
  method FormatWithMultipleLandmarks(units: int, start: Pos, end: Pos, analyzer: RouteAnalyzer, exclude: Option<set<int>>)
    returns (text: string)
    requires analyzer.Valid()
    ensures text == MultipleFor(analyzer, start, end, exclude)
  {
    var sequences := analyzer.GenerateThreeSequences(start, end, exclude);
    var selection := SelectBestSequenceWithFallback(sequences, analyzer.config);
    text := MultipleText(selection);
  }

  /** `format_distance`. */
  method FormatDistance(units: int, startPos: Option<Pos>, endPos: Option<Pos>, analyzer: RouteAnalyzer?, exclude: Option<set<int>>)
    returns (text: string)
    requires analyzer != null ==> analyzer.Valid()
    ensures text == DistanceText(units, startPos, endPos, analyzer, exclude)
  {
    if units == 0 {
      return "";
    }
    var precise := startPos.Some? && endPos.Some? && analyzer != null;
    var boothCount;
    if precise {
      boothCount := CountPassedBooths(startPos.value, endPos.value, analyzer);
    } else {
      boothCount := UnitsToBoothCount(units);
    }
    if units <= 3 {
      if boothCount == 0 {
        return "走過一小段距離";
      }
      return "走過 " + IntText(boothCount) + " 個攤位";
    } else if units <= 15 {
      if precise {
        text := FormatWithIntermediateLandmarks(units, startPos.value, endPos.value, analyzer, boothCount, exclude);
      } else {
        text := "直走約 " + IntText(boothCount) + " 個攤位";
      }
    } else {
      if precise {
        text := FormatWithMultipleLandmarks(units, startPos.value, endPos.value, analyzer, exclude);
      } else {
        text := "直走較長距離" + AboutTwoMinutes;
      }
    }
  }

  // ---------------------------------------------------------------------------------------
  // Wording the steps

  /** The wording of a leg: its length and, when given, its two ends. */
  type DistanceWording = (int, Option<Pos>, Option<Pos>) -> string

  function DistanceWordingOf(analyzer: RouteAnalyzer?, exclude: Option<set<int>>): DistanceWording {
    (units: int, startPos: Option<Pos>, endPos: Option<Pos>) => DistanceText(units, startPos, endPos, analyzer, exclude)
  }

  /**
   * `distance` words every leg as `format_distance` does with this analyser and these
   * excluded cells. (The trigger keeps the wording of a leg from being unfolded where
   * only `distance` is mentioned.)
   */
  ghost predicate Describes(distance: DistanceWording, analyzer: RouteAnalyzer?, exclude: Option<set<int>>) {
    forall units, startPos, endPos {:trigger DistanceText(units, startPos, endPos, analyzer, exclude)} ::
      distance(units, startPos, endPos) == DistanceText(units, startPos, endPos, analyzer, exclude)
  }

  lemma WordingDescribes(analyzer: RouteAnalyzer?, exclude: Option<set<int>>)
    ensures Describes(DistanceWordingOf(analyzer, exclude), analyzer, exclude)
  {
  }

  /** The sentences so far and the point of the unit path the continue steps have reached. */
  datatype Rendering = Rendering(instructions: seq<string>, pathIndex: int)

  /** No continue step goes backwards. */
  predicate NonNegativeLegs(steps: seq<NavigationStep>) {
    forall j | 0 <= j < |steps| :: steps[j].action == Continue ==> steps[j].distanceUnits >= 0
  }

  /** The sentence of an orientation step. */
  function OrientText(l: LandmarkInfo): string {
    if l.side == Front then "面向" + NameText(l.name) + "攤位，準備出發。"
    else "以" + FormatLandmark(l) + "為參考點，準備出發。"
  }

  /** The sentence of the arrival. */
  function ArriveText(landmark: Option<LandmarkInfo>): string {
    if landmark.Some? then "目的地就在" + FormatLandmark(landmark.value) + "。" else "已到達目的地。"
  }

  /** The sentence of a turn. */
  function TurnText(landmark: Option<LandmarkInfo>, actionText: string): string {
    match landmark
    case None => "在此處" + actionText + "。"
    case Some(l) =>
      if l.side == Front then "走到" + NameText(l.name) + "前" + actionText + "。"
      else "看到" + FormatLandmark(l) + "後" + actionText + "。"
  }

  /** A distance wording as a sentence, when there is any. */
  function Sentence(text: string): seq<string> {
    if text != "" then [text + "。"] else []
  }

  /**
   * A continue step of `units` worded: the leg is measured on the unit path from where the
   * previous legs ended, up to the end of the path at most; without a path, by its length alone.
   */
  function RenderLeg(r: Rendering, units: int, unitPath: seq<Pos>, distance: DistanceWording): (r': Rendering)
    requires 0 <= r.pathIndex && units >= 0
    ensures 0 <= r'.pathIndex && (unitPath == [] ==> r'.pathIndex == r.pathIndex)
    ensures unitPath != [] && r.pathIndex < |unitPath| ==> r'.pathIndex < |unitPath|
  {
    var measured := unitPath != [] && r.pathIndex < |unitPath|;
    var endIndex := if measured then Min(r.pathIndex + units, |unitPath| - 1) else r.pathIndex;
    var startPos := if measured then Some(unitPath[r.pathIndex]) else None;
    var endPos := if measured then Some(unitPath[endIndex]) else None;
    Rendering(r.instructions + Sentence(distance(units, startPos, endPos)), endIndex)
  }

  /**
   * One step worded. A continue step measures its leg on the unit path from where the
   * previous legs ended, up to the end of the path at most.
   */
  function RenderStep(r: Rendering, step: NavigationStep, unitPath: seq<Pos>, distance: DistanceWording): (r': Rendering)
    requires 0 <= r.pathIndex && (step.action == Continue ==> step.distanceUnits >= 0)
    ensures 0 <= r'.pathIndex && (unitPath == [] ==> r'.pathIndex == r.pathIndex)
    ensures unitPath != [] && r.pathIndex < |unitPath| ==> r'.pathIndex < |unitPath|
  {
    match step.action
    case Orient =>
      if step.landmark.Some? then Rendering(r.instructions + [OrientText(step.landmark.value)], r.pathIndex) else r
    case Arrive =>
      Rendering(r.instructions + [ArriveText(step.landmark)], r.pathIndex)
    case Continue =>
      RenderLeg(r, step.distanceUnits, unitPath, distance)
    case TurnTo(d) =>
      if d == TurnLeft || d == TurnRight then Rendering(r.instructions + [TurnText(step.landmark, FormatAction(step.action))], r.pathIndex)
      else r
  }

  /** The first n steps worded. */
  function Render(steps: seq<NavigationStep>, unitPath: seq<Pos>, distance: DistanceWording, n: int): (r: Rendering)
    requires 0 <= n <= |steps| && NonNegativeLegs(steps)
    ensures 0 <= r.pathIndex && (unitPath == [] ==> r.pathIndex == 0) && (unitPath != [] ==> r.pathIndex < |unitPath|)
    decreases n
  {
    if n == 0 then Rendering([], 0)
    else RenderStep(Render(steps, unitPath, distance, n - 1), steps[n - 1], unitPath, distance)
  }

  /** The cells excluded from the landmark searches: the route's first and last cells, when it has two or more. */
  function ExcludedCells(routeCells: seq<int>): set<int> {
    if |routeCells| >= 2 then {routeCells[0], routeCells[|routeCells| - 1]} else {}
  }

  /** `generate_navigation_text`: the sentences of the steps, in order. */
  function NavigationText(steps: seq<NavigationStep>, unitPath: seq<Pos>, analyzer: RouteAnalyzer?, routeCells: seq<int>): seq<string>
    requires NonNegativeLegs(steps)
  {
    Render(steps, unitPath, DistanceWordingOf(analyzer, Some(ExcludedCells(routeCells))), |steps|).instructions
  }

  /** A wording that leaves only legs of length 0 without words. */
  ghost predicate WordsEveryLeg(distance: DistanceWording) {
    forall units, s, e | units != 0 :: distance(units, s, e) != ""
  }

  lemma DistanceWordingWordsEveryLeg(analyzer: RouteAnalyzer?, exclude: Option<set<int>>)
    ensures WordsEveryLeg(DistanceWordingOf(analyzer, exclude))
  {
    forall units, s, e | units != 0
      ensures DistanceWordingOf(analyzer, exclude)(units, s, e) != ""
    {
      DistanceTextEmpty(units, s, e, analyzer, exclude);
    }
  }

  /** How far a step moves along the unit path. */
  function LegOf(step: NavigationStep): int {
    if step.action == Continue then step.distanceUnits else 0
  }

  /** A step worth a sentence gets exactly one, and moves the path index by its leg, up to the end of the path. */
  lemma RenderStepFacts(r: Rendering, step: NavigationStep, unitPath: seq<Pos>, distance: DistanceWording)
    requires 0 <= r.pathIndex && Speaks(step) && WordsEveryLeg(distance)
    requires unitPath != [] ==> r.pathIndex < |unitPath|
    ensures var r' := RenderStep(r, step, unitPath, distance);
      && |r'.instructions| == |r.instructions| + 1
      && (unitPath != [] ==> r'.pathIndex == Min(r.pathIndex + LegOf(step), |unitPath| - 1))
  {
    if step.action == Continue {
      if unitPath != [] {
        var endIndex := Min(r.pathIndex + step.distanceUnits, |unitPath| - 1);
        assert distance(step.distanceUnits, Some(unitPath[r.pathIndex]), Some(unitPath[endIndex])) != "";
      } else {
        assert distance(step.distanceUnits, None, None) != "";
      }
    }
  }

  /** Steps worth a sentence never move backwards. */
  lemma AllSpeakNonNegative(steps: seq<NavigationStep>)
    requires AllSpeak(steps)
    ensures NonNegativeLegs(steps)
  {
    forall j | 0 <= j < |steps| && steps[j].action == Continue
      ensures steps[j].distanceUnits >= 0
    {
      assert Speaks(steps[j]);
    }
  }

  /** The continue distances of a prefix, one step more. */
  lemma ContinueTotalPrefix(steps: seq<NavigationStep>, n: int)
    requires 0 < n <= |steps|
    ensures ContinueTotal(steps[..n]) == ContinueTotal(steps[..n - 1]) + LegOf(steps[n - 1])
  {
    assert steps[..n][..n - 1] == steps[..n - 1];
  }

  /**
   * Steps that are each worth a sentence get one sentence each, and the legs walk the unit
   * path up to their total length, or to its end.
   */
  lemma {:induction false} RenderOnePerStep(steps: seq<NavigationStep>, unitPath: seq<Pos>, distance: DistanceWording, n: int)
    requires 0 <= n <= |steps| && AllSpeak(steps) && NonNegativeLegs(steps) && WordsEveryLeg(distance)
    ensures |Render(steps, unitPath, distance, n).instructions| == n
    ensures unitPath != [] ==> Render(steps, unitPath, distance, n).pathIndex == Min(ContinueTotal(steps[..n]), |unitPath| - 1)
    ensures ContinueTotal(steps[..n]) >= 0
    decreases n
  {
    if n == 0 {
      assert steps[..0] == [];
    } else {
      RenderOnePerStep(steps, unitPath, distance, n - 1);
      assert Speaks(steps[n - 1]);
      RenderStepFacts(Render(steps, unitPath, distance, n - 1), steps[n - 1], unitPath, distance);
      ContinueTotalPrefix(steps, n);
    }
  }

  /**
   * Whatever wording is used for the legs, as long as it words every leg that moves, the
   * steps of a route of two or more points get one sentence each; the legs walk the unit
   * path exactly to its end; the last sentence is the arrival.
   */
  lemma RouteTextOnePerStep(path: seq<Pos>, near: Search, arrival: Option<LandmarkInfo>, distance: DistanceWording)
    requires |path| >= 2 && WordsEveryLeg(distance)
    ensures var steps := StepsWith(path, near, arrival);
      && NonNegativeLegs(steps)
      && var r := Render(steps, path, distance, |steps|);
      && |r.instructions| == |steps|
      && r.pathIndex == |path| - 1
      && r.instructions[|steps| - 1] == ArriveText(arrival)
  {
    var steps := StepsWith(path, near, arrival);
    StepsSpeak(path, near, arrival);
    AllSpeakNonNegative(steps);
    StepsCoverPath(path, near, arrival);
    RenderOnePerStep(steps, path, distance, |steps|);
    assert steps[..|steps|] == steps;
    StepsEndWithArrival(path, near, arrival);
    RenderLastArrival(steps, path, distance);
  }

  /** Steps ending with the arrival end with its sentence. */
  lemma RenderLastArrival(steps: seq<NavigationStep>, unitPath: seq<Pos>, distance: DistanceWording)
    requires steps != [] && steps[|steps| - 1].action == Arrive
    requires AllSpeak(steps) && NonNegativeLegs(steps) && WordsEveryLeg(distance)
    ensures |Render(steps, unitPath, distance, |steps|).instructions| == |steps|
    ensures Render(steps, unitPath, distance, |steps|).instructions[|steps| - 1] == ArriveText(steps[|steps| - 1].landmark)
  {
    RenderOnePerStep(steps, unitPath, distance, |steps| - 1);
  }

  /** One step of `generate_navigation_text`: its sentence, if any, and the path index after it. */
  method WordStep(instructions: seq<string>, pathIndex: int, step: NavigationStep, unitPath: seq<Pos>,
                  analyzer: RouteAnalyzer?, excludeCellIds: set<int>, ghost distance: DistanceWording)
    returns (instructions': seq<string>, pathIndex': int)
    requires analyzer != null ==> analyzer.Valid()
    requires Describes(distance, analyzer, Some(excludeCellIds))
    requires 0 <= pathIndex && (step.action == Continue ==> step.distanceUnits >= 0)
    ensures Rendering(instructions', pathIndex') == RenderStep(Rendering(instructions, pathIndex), step, unitPath, distance)
  {
    instructions', pathIndex' := instructions, pathIndex;
    match step.action {
      case Orient =>
        if step.landmark.Some? {
          instructions' := instructions + [OrientText(step.landmark.value)];
        }
      case Arrive =>
        instructions' := instructions + [ArriveText(step.landmark)];
      case Continue =>
        instructions', pathIndex' := WordLeg(instructions, pathIndex, step, unitPath, analyzer, excludeCellIds, distance);
      case TurnTo(d) =>
        if d == TurnLeft || d == TurnRight {
          var actionText := FormatAction(step.action);
          instructions' := instructions + [TurnText(step.landmark, actionText)];
        }
    }
  }

  /** A continue step: the leg from the path index on, measured on the unit path when there is one, then worded. */
  method WordLeg(instructions: seq<string>, pathIndex: int, step: NavigationStep, unitPath: seq<Pos>,
                 analyzer: RouteAnalyzer?, excludeCellIds: set<int>, ghost distance: DistanceWording)
    returns (instructions': seq<string>, pathIndex': int)
    requires analyzer != null ==> analyzer.Valid()
    requires Describes(distance, analyzer, Some(excludeCellIds))
    requires 0 <= pathIndex && step.action == Continue && step.distanceUnits >= 0
    ensures Rendering(instructions', pathIndex') == RenderLeg(Rendering(instructions, pathIndex), step.distanceUnits, unitPath, distance)
  {
    var startPos: Option<Pos> := None;
    var endPos: Option<Pos> := None;
    pathIndex' := pathIndex;
    if unitPath != [] && pathIndex < |unitPath| {
      startPos := Some(unitPath[pathIndex]);
      var endIndex := Min(pathIndex + step.distanceUnits, |unitPath| - 1);
      endPos := Some(unitPath[endIndex]);
      pathIndex' := endIndex;
    }
    var distanceText := WordDistance(step.distanceUnits, startPos, endPos, analyzer, Some(excludeCellIds), distance);
    instructions' := instructions + Sentence(distanceText);
  }

  /** `format_distance`, seen through a wording that describes it. */
  method WordDistance(units: int, startPos: Option<Pos>, endPos: Option<Pos>, analyzer: RouteAnalyzer?,
                      exclude: Option<set<int>>, ghost distance: DistanceWording)
    returns (text: string)
    requires analyzer != null ==> analyzer.Valid()
    requires Describes(distance, analyzer, exclude)
    ensures text == distance(units, startPos, endPos)
  {
    text := FormatDistance(units, startPos, endPos, analyzer, exclude);
  }

  /** `generate_navigation_text`: the sentences of the steps, the legs measured on the unit path when there is one. */
  method GenerateNavigationText(steps: seq<NavigationStep>, unitPath: seq<Pos>, analyzer: RouteAnalyzer?, routeCells: seq<int>)
    returns (instructions: seq<string>)
    requires analyzer != null ==> analyzer.Valid()
    requires NonNegativeLegs(steps)
    ensures instructions == NavigationText(steps, unitPath, analyzer, routeCells)
  {
    var excludeCellIds := ExcludedCells(routeCells);
    ghost var distance := DistanceWordingOf(analyzer, Some(excludeCellIds));
    WordingDescribes(analyzer, Some(excludeCellIds));
    instructions := [];
    var pathIndex := 0;
    for k := 0 to |steps|
      invariant Rendering(instructions, pathIndex) == Render(steps, unitPath, distance, k)
    {
      instructions, pathIndex := WordStep(instructions, pathIndex, steps[k], unitPath, analyzer, excludeCellIds, distance);
    }
  }
}
