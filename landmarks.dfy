/**
 * The landmark rules of the route narrator (core/navigation.py): which cells are landmarks,
 * which of them have usable names, their priority, the coverage of a landmark along a
 * segment, the per-side top-K selection and the choice among the side sequences.
 */
module Landmarks {
  import opened Wrappers
  import opened Grid
  import opened Geometry

  // ---------------------------------------------------------------------------------------
  // Configuration

  /** The narrator's tunables; only the fields the core reads are kept. */
  datatype NavigationConfig = NavigationConfig(
    searchRadius: int,
    distanceFilter: int,
    maxLandmarksPerSide: int,
    minCoverageThreshold: real,
    useFrontFallback: bool,
    longSegmentThreshold: int,
    useHybridMethod: bool)

  /** The configuration used when none is given. */
  const DefaultConfig := NavigationConfig(3, 2, 3, 0.2, true, 5, true)

  // ---------------------------------------------------------------------------------------
  // Landmark rules

  /** Large areas: always good landmarks, and the only cells a segment can cross. */
  predicate IsLargeArea(t: string) {
    t == "exp hall" || t == "stage" || t == "Lounge"
  }

  /** Booths and large areas serve as landmarks. */
  predicate IsLandmark(c: Cell) {
    c.cellType == "booth" || IsLargeArea(c.cellType)
  }

  /**
   * The characters Python's `str.strip` removes and `str.isspace` accepts: the Unicode
   * whitespace of Python 3.12 (Unicode 15.0), including U+3000 (ideographic space).
   */
  predicate IsWhitespace(ch: char) {
    var n := ch as int;
    0x9 <= n <= 0xD || 0x1C <= n <= 0x20 || n == 0x85 || n == 0xA0 || n == 0x1680 ||
    0x2000 <= n <= 0x200A || 0x2028 <= n <= 0x2029 || n == 0x202F || n == 0x205F || n == 0x3000
  }

  /**
   * The characters Python's `str.isdigit` accepts: those with Unicode numeric type Decimal
   * or Digit (Python 3.12, Unicode 15.0), e.g. full-width digits and superscripts.
   */
  predicate IsDigitChar(ch: char) {
    var n := ch as int;
    0x30 <= n <= 0x39 || 0xB2 <= n <= 0xB3 || n == 0xB9 || 0x660 <= n <= 0x669 ||
    0x6F0 <= n <= 0x6F9 || 0x7C0 <= n <= 0x7C9 || 0x966 <= n <= 0x96F || 0x9E6 <= n <= 0x9EF ||
    0xA66 <= n <= 0xA6F || 0xAE6 <= n <= 0xAEF || 0xB66 <= n <= 0xB6F || 0xBE6 <= n <= 0xBEF ||
    0xC66 <= n <= 0xC6F || 0xCE6 <= n <= 0xCEF || 0xD66 <= n <= 0xD6F || 0xDE6 <= n <= 0xDEF ||
    0xE50 <= n <= 0xE59 || 0xED0 <= n <= 0xED9 || 0xF20 <= n <= 0xF29 ||
    0x1040 <= n <= 0x1049 || 0x1090 <= n <= 0x1099 || 0x1369 <= n <= 0x1371 ||
    0x17E0 <= n <= 0x17E9 || 0x1810 <= n <= 0x1819 || 0x1946 <= n <= 0x194F ||
    0x19D0 <= n <= 0x19DA || 0x1A80 <= n <= 0x1A89 || 0x1A90 <= n <= 0x1A99 ||
    0x1B50 <= n <= 0x1B59 || 0x1BB0 <= n <= 0x1BB9 || 0x1C40 <= n <= 0x1C49 ||
    0x1C50 <= n <= 0x1C59 || n == 0x2070 || 0x2074 <= n <= 0x2079 || 0x2080 <= n <= 0x2089 ||
    0x2460 <= n <= 0x2468 || 0x2474 <= n <= 0x247C || 0x2488 <= n <= 0x2490 || n == 0x24EA ||
    0x24F5 <= n <= 0x24FD || n == 0x24FF || 0x2776 <= n <= 0x277E || 0x2780 <= n <= 0x2788 ||
    0x278A <= n <= 0x2792 || 0xA620 <= n <= 0xA629 || 0xA8D0 <= n <= 0xA8D9 ||
    0xA900 <= n <= 0xA909 || 0xA9D0 <= n <= 0xA9D9 || 0xA9F0 <= n <= 0xA9F9 ||
    0xAA50 <= n <= 0xAA59 || 0xABF0 <= n <= 0xABF9 || 0xFF10 <= n <= 0xFF19 ||
    0x104A0 <= n <= 0x104A9 || 0x10A40 <= n <= 0x10A43 || 0x10D30 <= n <= 0x10D39 ||
    0x10E60 <= n <= 0x10E68 || 0x11052 <= n <= 0x1105A || 0x11066 <= n <= 0x1106F ||
    0x110F0 <= n <= 0x110F9 || 0x11136 <= n <= 0x1113F || 0x111D0 <= n <= 0x111D9 ||
    0x112F0 <= n <= 0x112F9 || 0x11450 <= n <= 0x11459 || 0x114D0 <= n <= 0x114D9 ||
    0x11650 <= n <= 0x11659 || 0x116C0 <= n <= 0x116C9 || 0x11730 <= n <= 0x11739 ||
    0x118E0 <= n <= 0x118E9 || 0x11950 <= n <= 0x11959 || 0x11C50 <= n <= 0x11C59 ||
    0x11D50 <= n <= 0x11D59 || 0x11DA0 <= n <= 0x11DA9 || 0x11F50 <= n <= 0x11F59 ||
    0x16A60 <= n <= 0x16A69 || 0x16AC0 <= n <= 0x16AC9 || 0x16B50 <= n <= 0x16B59 ||
    0x1D7CE <= n <= 0x1D7FF || 0x1E140 <= n <= 0x1E149 || 0x1E2F0 <= n <= 0x1E2F9 ||
    0x1E4F0 <= n <= 0x1E4F9 || 0x1E950 <= n <= 0x1E959 || 0x1F100 <= n <= 0x1F10A ||
    0x1FBF0 <= n <= 0x1FBF9
  }

  /** `str.isdigit`: non-empty and digits only. */
  predicate IsDigitString(s: string) {
    |s| > 0 && forall i | 0 <= i < |s| :: IsDigitChar(s[i])
  }

  /** `str.strip() == ''`: nothing but whitespace. */
  predicate IsBlank(s: string) {
    forall i | 0 <= i < |s| :: IsWhitespace(s[i])
  }

  /** The string with its space characters removed. */
  function RemoveSpaces(s: string): (r: string)
    ensures forall ch :: ch in r <==> ch in s && ch != ' '
  {
    if s == [] then []
    else (if s[0] == ' ' then [] else [s[0]]) + RemoveSpaces(s[1..])
  }

  /**
   * A landmark with a meaningful name: large areas always; other cells need a name that
   * is not blank and not a number, spaces disregarded.
   */
  predicate IsGoodLandmark(c: Cell) {
    if IsLargeArea(c.cellType) then true
    else
      match c.name
      case None => false
      case Some(n) => !IsBlank(n) && !IsDigitString(n) && !IsDigitString(RemoveSpaces(n))
  }

  /**
   * A cell other than a large area is a good landmark exactly when its name has a
   * non-whitespace character and a character that is neither a space nor a digit.
   */
  lemma GoodNameCharacterised(c: Cell)
    requires !IsLargeArea(c.cellType) && c.name.Some?
    ensures IsGoodLandmark(c) <==>
      (exists i :: 0 <= i < |c.name.value| && !IsWhitespace(c.name.value[i])) &&
      (exists i :: 0 <= i < |c.name.value| && c.name.value[i] != ' ' && !IsDigitChar(c.name.value[i]))
  {
    var n := c.name.value;
    var r := RemoveSpaces(n);
    if IsGoodLandmark(c) {
      assert !IsBlank(n);
      assert |r| > 0 by {
        var i :| 0 <= i < |n| && !IsWhitespace(n[i]);
        assert n[i] in r;
      }
      var j :| 0 <= j < |r| && !IsDigitChar(r[j]);
      assert r[j] in n;
    } else if !IsBlank(n) {
      forall i | 0 <= i < |n| && n[i] != ' '
        ensures IsDigitChar(n[i])
      {
        if !IsDigitString(n) {
          assert n[i] in r;
          var j :| 0 <= j < |r| && r[j] == n[i];
        }
      }
    }
  }

  /** Booths named by a number or blank are not good landmarks; a named booth or any large area is. */
  lemma GoodLandmarkExamples(c: Cell)
    ensures c.cellType == "booth" && c.name == Some("432") ==> !IsGoodLandmark(c)
    ensures c.cellType == "booth" && c.name == Some("4 32") ==> !IsGoodLandmark(c)
    ensures c.cellType == "booth" && c.name == Some("  ") ==> !IsGoodLandmark(c)
    ensures c.cellType == "booth" && c.name == None ==> !IsGoodLandmark(c)
    ensures c.cellType == "booth" && c.name == Some("A1") ==> IsGoodLandmark(c)
    ensures c.cellType == "stage" ==> IsGoodLandmark(c)
  {
    if c.cellType == "booth" && c.name == Some("432") {
      assert IsDigitString("432");
    } else if c.cellType == "booth" && c.name == Some("4 32") {
      assert RemoveSpaces("4 32") == "432";
      assert IsDigitString("432");
    } else if c.cellType == "booth" && c.name == Some("  ") {
      assert IsBlank("  ");
    } else if c.cellType == "booth" && c.name == Some("A1") {
      assert "A1"[0] == 'A' && !IsWhitespace('A');
      assert !IsDigitString(RemoveSpaces("A1")) by {
        assert RemoveSpaces("A1")[0] == 'A';
      }
    }
  }

  /**
   * Python's Unicode-aware tests: a booth named by full-width digits or by an ideographic
   * space is not a good landmark, one named by a Chinese word is.
   */
  lemma UnicodeNameExamples(c: Cell)
    requires c.cellType == "booth"
    ensures c.name == Some("\U{FF11}\U{FF12}\U{FF13}") ==> !IsGoodLandmark(c)
    ensures c.name == Some("\U{3000}") ==> !IsGoodLandmark(c)
    ensures c.name == Some("\U{821E}\U{53F0}") ==> IsGoodLandmark(c)
  {
    if c.name == Some("\U{FF11}\U{FF12}\U{FF13}") {
      assert IsDigitString("\U{FF11}\U{FF12}\U{FF13}");
    } else if c.name == Some("\U{3000}") {
      assert IsBlank("\U{3000}");
    } else if c.name == Some("\U{821E}\U{53F0}") {
      var n := "\U{821E}\U{53F0}";
      assert !IsWhitespace(n[0]) && !IsDigitChar(n[0]);
      assert !IsBlank(n);
      assert !IsDigitString(n);
      assert RemoveSpaces(n) == n;
    }
  }

  /** The footprint in grid units. */
  function CalculateLandmarkArea(c: Cell): int {
    c.unitW * c.unitH
  }

  /** The priority of a cell type before the area bonus (smaller is more important). */
  function BasePriority(t: string): int {
    if t == "exp hall" then 100
    else if t == "stage" then 200
    else if t == "Lounge" then 300
    else if t == "booth" then 400
    else 500
  }

  /** Landmark priority: the type's base less the area; a smaller number ranks higher. */
  function GetLandmarkPriority(c: Cell): int {
    BasePriority(c.cellType) - CalculateLandmarkArea(c)
  }

  /** Among cells of one type, the larger footprint ranks higher. */
  lemma LargerRanksHigher(a: Cell, b: Cell)
    requires a.cellType == b.cellType && CalculateLandmarkArea(a) > CalculateLandmarkArea(b)
    ensures GetLandmarkPriority(a) < GetLandmarkPriority(b)
  {
  }

  /**
   * While areas stay below 100 units, type decides first: halls before stages before
   * lounges before booths before everything else.
   */
  lemma TypeRanksFirst(a: Cell, b: Cell)
    requires 0 <= CalculateLandmarkArea(a) < 100 && 0 <= CalculateLandmarkArea(b) < 100
    requires BasePriority(a.cellType) < BasePriority(b.cellType)
    ensures GetLandmarkPriority(a) < GetLandmarkPriority(b)
  {
    assert BasePriority(a.cellType) + 100 <= BasePriority(b.cellType);
  }

  // ---------------------------------------------------------------------------------------
  // Coverage

  /** A landmark seen from a segment: its side, the fraction of the segment it covers, and the sample positions it was seen at. */
  datatype LandmarkWithCoverage = LandmarkWithCoverage(
    cell: Cell, side: Side, coverageRatio: real, pathPositions: seq<int>)

  predicate StrictlyIncreasing(s: seq<int>) {
    forall i, j | 0 <= i < j < |s| :: s[i] < s[j]
  }

  /** `x` put into the strictly increasing `s` at its place, unless already there. */
  function InsertDistinct(x: int, s: seq<int>): (r: seq<int>)
    requires StrictlyIncreasing(s)
    ensures StrictlyIncreasing(r)
    ensures forall y :: y in r <==> y == x || y in s
  {
    if s == [] then [x]
    else if x < s[0] then
      PrependIncreasing(x, s);
      [x] + s
    else if x == s[0] then s
    else
      IncreasingTail(s);
      var rest := InsertDistinct(x, s[1..]);
      assert rest != [] ==> s[0] < rest[0] by {
        if rest != [] {
          assert rest[0] in rest;
        }
      }
      PrependIncreasing(s[0], rest);
      assert s == [s[0]] + s[1..];
      [s[0]] + rest
  }

  lemma IncreasingTail(s: seq<int>)
    requires s != [] && StrictlyIncreasing(s)
    ensures StrictlyIncreasing(s[1..])
    ensures forall y | y in s[1..] :: s[0] < y
  {
    forall y | y in s[1..]
      ensures s[0] < y
    {
      var k :| 0 <= k < |s| - 1 && s[1..][k] == y;
      assert s[k + 1] == y;
    }
  }

  /** A value below the first of a strictly increasing sequence can go in front of it. */
  lemma PrependIncreasing(y: int, s: seq<int>)
    requires StrictlyIncreasing(s)
    requires s != [] ==> y < s[0]
    ensures StrictlyIncreasing([y] + s)
  {
    var r := [y] + s;
    forall i, j | 0 <= i < j < |r|
      ensures r[i] < r[j]
    {
      assert r[j] == s[j - 1];
      if i > 0 {
        assert r[i] == s[i - 1];
      }
    }
  }

  /** `sorted(set(positions))`: the distinct positions in increasing order. */
  function SortedDistinct(positions: seq<int>): (r: seq<int>)
    ensures StrictlyIncreasing(r)
    ensures forall y :: y in r <==> y in positions
  {
    if positions == [] then []
    else InsertDistinct(positions[|positions| - 1], SortedDistinct(positions[..|positions| - 1]))
  }

  /** A strictly increasing sequence holds as many values as it has elements. */
  lemma {:induction false} DistinctCount(s: seq<int>)
    requires StrictlyIncreasing(s)
    ensures |set y | y in s| == |s|
  {
    if s != [] {
      var rest := s[1..];
      DistinctCount(rest);
      assert (set y | y in s) == {s[0]} + (set y | y in rest) by {
        assert forall y :: y in s <==> y == s[0] || y in rest;
      }
      assert s[0] !in rest;
    }
  }

  /**
   * The length covered by the positions: the lengths of the runs of consecutive values in
   * the sorted distinct positions, added up. It is the number of distinct positions.
   */
  method CalculateCoverageLength(positions: seq<int>) returns (total: int)
    ensures total == |set y | y in positions|
  {
    if |positions| == 0 {
      return 0;
    }
    var ps := SortedDistinct(positions);
    assert ps != [] by {
      assert positions[0] in ps;
    }
    total := 0;
    var start, end := ps[0], ps[0];
    ghost var runStart := 0;
    for i := 1 to |ps|
      invariant 0 <= runStart < i
      invariant total == runStart
      invariant end - start + 1 == i - runStart
    {
      if ps[i] == end + 1 {
        end := ps[i];
      } else {
        total := total + (end - start + 1);
        start, end := ps[i], ps[i];
        runStart := i;
      }
    }
    total := total + (end - start + 1);
    DistinctCount(ps);
    assert (set y | y in ps) == (set y | y in positions);
  }

  // ---------------------------------------------------------------------------------------
  // Top-K per side

  /** `s` is in non-decreasing order of `key`. */
  predicate SortedBy<T>(s: seq<T>, key: T -> real) {
    forall i, j | 0 <= i < j < |s| :: key(s[i]) <= key(s[j])
  }

  /** `x` put after every element of the sorted `s` whose key is not larger (a stable insertion). */
  function InsertBy<T>(x: T, s: seq<T>, key: T -> real): (r: seq<T>)
    requires SortedBy(s, key)
    ensures SortedBy(r, key)
    ensures multiset(r) == multiset(s) + multiset{x}
  {
    if s == [] then [x]
    else if key(x) < key(s[0]) then
      PrependSorted(x, s, key);
      [x] + s
    else
      SortedTail(s, key);
      var rest := InsertBy(x, s[1..], key);
      InsertBehind(x, s, key, rest);
      [s[0]] + rest
  }

  lemma SortedTail<T>(s: seq<T>, key: T -> real)
    requires s != [] && SortedBy(s, key)
    ensures SortedBy(s[1..], key)
    ensures forall j | 0 <= j < |s| :: key(s[0]) <= key(s[j])
  {
    forall i, j | 0 <= i < j < |s| - 1
      ensures key(s[1..][i]) <= key(s[1..][j])
    {
      assert s[1..][i] == s[i + 1] && s[1..][j] == s[j + 1];
    }
  }

  /** An element no larger than every element of a sorted sequence can go in front of it. */
  lemma PrependSorted<T>(y: T, s: seq<T>, key: T -> real)
    requires SortedBy(s, key)
    requires s != [] ==> key(y) <= key(s[0])
    ensures SortedBy([y] + s, key)
  {
    var r := [y] + s;
    forall i, j | 0 <= i < j < |r|
      ensures key(r[i]) <= key(r[j])
    {
      assert r[j] == s[j - 1];
      if i > 0 {
        assert r[i] == s[i - 1];
      }
    }
  }

  /** The head of `s` stays in front of `x` inserted into the rest of `s`. */
  lemma InsertBehind<T>(x: T, s: seq<T>, key: T -> real, rest: seq<T>)
    requires s != [] && SortedBy(s, key) && key(s[0]) <= key(x)
    requires SortedBy(rest, key) && multiset(rest) == multiset(s[1..]) + multiset{x}
    ensures SortedBy([s[0]] + rest, key)
    ensures multiset([s[0]] + rest) == multiset(s) + multiset{x}
  {
    if rest != [] {
      var y := rest[0];
      assert y in multiset(rest);
      if y != x {
        assert y in multiset(s[1..]);
        var k :| 0 <= k < |s[1..]| && s[1..][k] == y;
        assert s[k + 1] == y;
      }
    }
    PrependSorted(s[0], rest, key);
    assert s == [s[0]] + s[1..];
  }

  /** Python's stable `sort(key=...)`: ordered by key, same elements. */
  function SortBy<T>(s: seq<T>, key: T -> real): (r: seq<T>)
    ensures SortedBy(r, key)
    ensures multiset(r) == multiset(s)
    ensures |r| == |s|
  {
    if s == [] then []
    else
      var init, last := s[..|s| - 1], s[|s| - 1];
      assert s == init + [last];
      var sorted := SortBy(init, key);
      var r := InsertBy(last, sorted, key);
      assert |r| == |multiset(r)|;
      r
  }

  /** `s[:k]` with Python's slicing: a negative bound counts from the end. */
  function PyTake<T>(s: seq<T>, k: int): (r: seq<T>)
    ensures k >= 0 ==> |r| == if k <= |s| then k else |s|
    ensures |r| <= |s| && r == s[..|r|]
  {
    if k >= 0 then (if k <= |s| then s[..k] else s)
    else if |s| + k >= 0 then s[..|s| + k]
    else []
  }

  /** The first sample position a landmark was seen at (its positions are non-empty where used). */
  function FirstSeen(lm: LandmarkWithCoverage): int {
    if lm.pathPositions == [] then 0 else Minimum(lm.pathPositions)
  }

  function Minimum(s: seq<int>): (m: int)
    requires s != []
    ensures m in s && forall y | y in s :: m <= y
  {
    if |s| == 1 then s[0]
    else
      var rest := Minimum(s[1..]);
      assert forall y | y in s :: y == s[0] || y in s[1..];
      if s[0] <= rest then s[0] else rest
  }

  function CoverageKey(lm: LandmarkWithCoverage): real {
    lm.coverageRatio
  }

  /** The sort key that puts the highest coverage first. */
  function CoverageDescending(lm: LandmarkWithCoverage): real {
    -lm.coverageRatio
  }

  function FirstSeenKey(lm: LandmarkWithCoverage): real {
    FirstSeen(lm) as real
  }

  function PriorityKey(lm: LandmarkWithCoverage): real {
    GetLandmarkPriority(lm.cell) as real
  }

  /**
   * `_process_landmark_sequence`: sorted by coverage, highest first; the first `maxCount`
   * kept; those put back in the order the segment meets them.
   */
  function ProcessLandmarkSequence(landmarks: seq<LandmarkWithCoverage>, maxCount: int): (r: seq<LandmarkWithCoverage>)
    requires forall lm | lm in landmarks :: lm.pathPositions != []
    ensures maxCount >= 0 ==> |r| == if maxCount <= |landmarks| then maxCount else |landmarks|
    ensures multiset(r) <= multiset(landmarks)
    ensures SortedBy(r, FirstSeenKey)
    ensures forall a, b | a in multiset(r) && b in multiset(landmarks) - multiset(r) ::
      a.coverageRatio >= b.coverageRatio
  {
    if landmarks == [] then []
    else
      var byCoverage := SortBy(landmarks, CoverageDescending);
      var top := PyTake(byCoverage, maxCount);
      var r := SortBy(top, FirstSeenKey);
      TopKeepsBest(byCoverage, |top|);
      r
  }

  /** Cutting a sequence sorted by falling coverage leaves in front nothing worse than what is cut off. */
  lemma TopKeepsBest(s: seq<LandmarkWithCoverage>, k: nat)
    requires k <= |s| && SortedBy(s, CoverageDescending)
    ensures multiset(s[..k]) <= multiset(s)
    ensures forall a, b | a in multiset(s[..k]) && b in multiset(s) - multiset(s[..k]) ::
      a.coverageRatio >= b.coverageRatio
  {
    var front, back := s[..k], s[k..];
    assert s == front + back;
    assert multiset(s) - multiset(front) == multiset(back);
    forall a: LandmarkWithCoverage, b: LandmarkWithCoverage | a in multiset(front) && b in multiset(back)
      ensures a.coverageRatio >= b.coverageRatio
    {
      FrontBeatsBack(s, k, a, b);
    }
  }

  lemma FrontBeatsBack(s: seq<LandmarkWithCoverage>, k: nat, a: LandmarkWithCoverage, b: LandmarkWithCoverage)
    requires k <= |s| && SortedBy(s, CoverageDescending)
    requires a in s[..k] && b in s[k..]
    ensures a.coverageRatio >= b.coverageRatio
  {
    var i :| 0 <= i < k && s[..k][i] == a;
    var j :| 0 <= j < |s| - k && s[k..][j] == b;
    assert s[i] == a && s[k + j] == b;
    assert CoverageDescending(s[i]) <= CoverageDescending(s[k + j]);
  }

  // ---------------------------------------------------------------------------------------
  // Choosing a sequence

  /** The side sequences of a segment; crossing, left and right are the primary ones. */
  datatype Sequences = Sequences(
    crossing: seq<LandmarkWithCoverage>,
    left: seq<LandmarkWithCoverage>,
    right: seq<LandmarkWithCoverage>,
    front: seq<LandmarkWithCoverage>)

  /** The landmarks of `all` on side `side`, in the order of `all`. */
  function OnSide(all: seq<LandmarkWithCoverage>, side: Side): (r: seq<LandmarkWithCoverage>)
    ensures forall lm :: lm in r <==> lm in all && lm.side == side
    ensures |r| <= |all|
  {
    if all == [] then []
    else
      var last := all[|all| - 1];
      assert forall lm :: lm in all <==> lm in all[..|all| - 1] || lm == last;
      OnSide(all[..|all| - 1], side) + if last.side == side then [last] else []
  }

  /** Every landmark was seen from at least one sample. */
  predicate AllSeen(all: seq<LandmarkWithCoverage>) {
    forall lm | lm in all :: lm.pathPositions != []
  }

  /**
   * The sequences `generate_three_sequences` builds from the landmarks along a segment: no
   * crossing landmarks, and the left, right and front landmarks each cut to the best
   * `maxCount` by coverage and put in the order the segment meets them.
   */
  function ThreeSequences(all: seq<LandmarkWithCoverage>, maxCount: int): Sequences
    requires AllSeen(all)
  {
    Sequences([], ProcessLandmarkSequence(OnSide(all, Left), maxCount),
              ProcessLandmarkSequence(OnSide(all, Right), maxCount),
              ProcessLandmarkSequence(OnSide(all, Front), maxCount))
  }

  /**
   * The left sequence holds only left landmarks of `all`, at most `maxCount` of them, in
   * the order first seen, none covering less than a left landmark left out; the same
   * for right and front; the crossing sequence is empty.
   */
  lemma ThreeSequencesShape(all: seq<LandmarkWithCoverage>, maxCount: int, side: Side)
    requires AllSeen(all) && side in {Left, Right, Front}
    ensures ThreeSequences(all, maxCount).crossing == []
    ensures SideShape(all, maxCount, side, SideSequence(ThreeSequences(all, maxCount), side))
  {
    var r := ProcessLandmarkSequence(OnSide(all, side), maxCount);
    assert SideSequence(ThreeSequences(all, maxCount), side) == r;
    ProcessedSideShape(all, maxCount, side);
  }

  /** What the sequence `r` for side `side` of `all` is promised to be. */
  predicate SideShape(all: seq<LandmarkWithCoverage>, maxCount: int, side: Side, r: seq<LandmarkWithCoverage>) {
    && (forall lm | lm in r :: lm in all && lm.side == side)
    && (maxCount >= 0 ==> |r| <= maxCount)
    && SortedBy(r, FirstSeenKey)
    && forall a, b | a in r && b in all && b.side == side && b !in r :: a.coverageRatio >= b.coverageRatio
  }

  lemma ProcessedSideShape(all: seq<LandmarkWithCoverage>, maxCount: int, side: Side)
    requires AllSeen(all)
    ensures SideShape(all, maxCount, side, ProcessLandmarkSequence(OnSide(all, side), maxCount))
  {
    var r := ProcessLandmarkSequence(OnSide(all, side), maxCount);
    forall lm | lm in r
      ensures lm in all && lm.side == side
    {
      ProcessedMember(OnSide(all, side), maxCount, lm);
    }
    forall a, b | a in r && b in all && b.side == side && b !in r
      ensures a.coverageRatio >= b.coverageRatio
    {
      ProcessedBest(OnSide(all, side), maxCount, a, b);
    }
  }

  lemma ProcessedMember(sel: seq<LandmarkWithCoverage>, maxCount: int, lm: LandmarkWithCoverage)
    requires AllSeen(sel) && lm in ProcessLandmarkSequence(sel, maxCount)
    ensures lm in sel
  {
    assert lm in multiset(ProcessLandmarkSequence(sel, maxCount));
  }

  lemma ProcessedBest(sel: seq<LandmarkWithCoverage>, maxCount: int, a: LandmarkWithCoverage, b: LandmarkWithCoverage)
    requires AllSeen(sel) && a in ProcessLandmarkSequence(sel, maxCount)
    requires b in sel && b !in ProcessLandmarkSequence(sel, maxCount)
    ensures a.coverageRatio >= b.coverageRatio
  {
    var r := ProcessLandmarkSequence(sel, maxCount);
    assert a in multiset(r);
    assert b in multiset(sel) - multiset(r);
  }

  /** The sequence `ThreeSequences` builds for one side. */
  function SideSequence(seqs: Sequences, side: Side): seq<LandmarkWithCoverage> {
    match side
    case Left => seqs.left
    case Right => seqs.right
    case Front => seqs.front
    case _ => []
  }


  /** The name a chosen sequence goes by; `ToFront(p)` is primary sequence p walked towards a front landmark. */
  datatype SeqName = Crossing | LeftSeq | RightSeq | FrontSeq | ToFront(primary: SeqName)

  /** The key the source uses for the sequence: "crossing", "left", "right", "front" or "<primary>_to_front". */
  function SeqNameText(n: SeqName): string {
    match n
    case Crossing => "crossing"
    case LeftSeq => "left"
    case RightSeq => "right"
    case FrontSeq => "front"
    case ToFront(p) => SeqNameText(p) + "_to_front"
  }

  /** The primary sequences in the order they are compared. */
  const PrimaryNames: seq<SeqName> := [Crossing, LeftSeq, RightSeq]

  function Primary(seqs: Sequences, n: SeqName): seq<LandmarkWithCoverage> {
    match n
    case Crossing => seqs.crossing
    case LeftSeq => seqs.left
    case RightSeq => seqs.right
    case _ => []
  }

  function SumCoverage(s: seq<LandmarkWithCoverage>): real {
    if s == [] then 0.0 else s[0].coverageRatio + SumCoverage(s[1..])
  }

  function MeanCoverage(s: seq<LandmarkWithCoverage>): real
    requires s != []
  {
    SumCoverage(s) / |s| as real
  }

  /** The outcome of the choice: the sequence's name (None when nothing was found), the sequence, and whether it fell back to front landmarks. */
  datatype Selection = Selection(name: Option<SeqName>, sequence: seq<LandmarkWithCoverage>, isFallback: bool)

  /**
   * Primary sequence `PrimaryNames[b]` is the one the comparison settles on: non-empty, of
   * a mean coverage above the initial score of -1 that no other non-empty primary sequence
   * exceeds, and strictly above every non-empty one compared before it.
   */
  predicate IsBestPrimary(seqs: Sequences, b: int) {
    0 <= b < |PrimaryNames| && Primary(seqs, PrimaryNames[b]) != [] &&
    MeanCoverage(Primary(seqs, PrimaryNames[b])) > -1.0 &&
    forall j | 0 <= j < |PrimaryNames| && Primary(seqs, PrimaryNames[j]) != [] ::
      MeanCoverage(Primary(seqs, PrimaryNames[j])) <= MeanCoverage(Primary(seqs, PrimaryNames[b])) &&
      (j < b ==> MeanCoverage(Primary(seqs, PrimaryNames[j])) < MeanCoverage(Primary(seqs, PrimaryNames[b])))
  }

  /**
   * The comparison over the first k primary sequences: the best score so far, starting at
   * -1, and the position of the sequence holding it (-1 for none). A sequence replaces the
   * best only when it is non-empty and its mean coverage is strictly higher.
   */
  function BestUpTo(seqs: Sequences, k: int): (r: (real, int))
    requires 0 <= k <= |PrimaryNames|
    ensures -1 <= r.1 < k
    ensures r.1 == -1 ==> r.0 == -1.0
    ensures r.1 >= 0 ==> Primary(seqs, PrimaryNames[r.1]) != [] && r.0 == MeanCoverage(Primary(seqs, PrimaryNames[r.1]))
  {
    if k == 0 then (-1.0, -1)
    else
      var prev := BestUpTo(seqs, k - 1);
      var sequence := Primary(seqs, PrimaryNames[k - 1]);
      if sequence != [] && MeanCoverage(sequence) > prev.0 then (MeanCoverage(sequence), k - 1) else prev
  }

  /** The selection, as a function of the three sequences and the configuration. */
  function SelectionFor(seqs: Sequences, config: NavigationConfig): Selection {
    var best := BestUpTo(seqs, |PrimaryNames|);
    var bestName := if best.1 >= 0 then Some(PrimaryNames[best.1]) else None;
    var bestSequence := if best.1 >= 0 then Primary(seqs, PrimaryNames[best.1]) else [];
    if config.useFrontFallback && best.0 < config.minCoverageThreshold && seqs.front != [] then
      if bestSequence != [] then CreateCombinedSequenceAsWritten(bestSequence, seqs.front, bestName.value)
      else Selection(Some(FrontSeq), seqs.front, true)
    else Selection(bestName, bestSequence, false)
  }

  /**
   * `select_best_sequence_with_fallback`: the primary sequence of highest mean coverage
   * (the first on ties); when fallback is on, that mean is below the threshold and there
   * are front landmarks, the combined pass-by-then-walk-to sequence instead, or the front
   * sequence itself when no primary sequence has any landmark.
   */
  method SelectBestSequenceWithFallback(seqs: Sequences, config: NavigationConfig) returns (r: Selection)
    ensures (forall j | 0 <= j < |PrimaryNames| :: Primary(seqs, PrimaryNames[j]) == []) ==>
      r == if config.useFrontFallback && -1.0 < config.minCoverageThreshold && seqs.front != []
           then Selection(Some(FrontSeq), seqs.front, true)
           else Selection(None, [], false)
    ensures forall b | IsBestPrimary(seqs, b) ::
      var best := Primary(seqs, PrimaryNames[b]);
      r == if config.useFrontFallback && MeanCoverage(best) < config.minCoverageThreshold && seqs.front != []
           then CreateCombinedSequenceAsWritten(best, seqs.front, PrimaryNames[b])
           else Selection(Some(PrimaryNames[b]), best, false)
    ensures (exists j | 0 <= j < |PrimaryNames| && Primary(seqs, PrimaryNames[j]) != [] ::
               MeanCoverage(Primary(seqs, PrimaryNames[j])) > -1.0) ==>
              r.name.Some?
  ensures r == SelectionFor(seqs, config)
  {
    var bestScore: real := -1.0;
    var bestName: Option<SeqName> := None;
    var bestSequence: seq<LandmarkWithCoverage> := [];
    ghost var bestIndex := -1;
    for k := 0 to |PrimaryNames|
      invariant (bestScore, bestIndex) == BestUpTo(seqs, k)
      invariant bestName == if bestIndex >= 0 then Some(PrimaryNames[bestIndex]) else None
      invariant bestSequence == if bestIndex >= 0 then Primary(seqs, PrimaryNames[bestIndex]) else []
    {
      var name := PrimaryNames[k];
      var sequence := Primary(seqs, name);
      if sequence == [] {
        continue;
      }
      var avgCoverage := SumCoverage(sequence) / |sequence| as real;
      if avgCoverage > bestScore {
        bestScore, bestName, bestSequence := avgCoverage, Some(name), sequence;
        bestIndex := k;
      }
    }
    SelectionForFacts(seqs, config);
    if config.useFrontFallback && bestScore < config.minCoverageThreshold && seqs.front != [] {
      if bestSequence != [] {
        return CreateCombinedSequenceAsWritten(bestSequence, seqs.front, bestName.value);
      }
      return Selection(Some(FrontSeq), seqs.front, true);
    }
    return Selection(bestName, bestSequence, false);
  }

  /**
   * The comparison over the first k primary sequences settles on the one of highest mean
   * coverage, the first on ties, provided it beats the initial score of -1.
   */
  lemma {:induction false} BestUpToFacts(seqs: Sequences, k: int)
    requires 0 <= k <= |PrimaryNames|
    ensures BestUpTo(seqs, k).1 == -1 ==>
      forall j | 0 <= j < k && Primary(seqs, PrimaryNames[j]) != [] :: MeanCoverage(Primary(seqs, PrimaryNames[j])) <= -1.0
    ensures BestUpTo(seqs, k).1 >= 0 ==>
      var (score, b) := BestUpTo(seqs, k);
      score > -1.0 &&
      forall j | 0 <= j < k && Primary(seqs, PrimaryNames[j]) != [] ::
        MeanCoverage(Primary(seqs, PrimaryNames[j])) <= score &&
        (j < b ==> MeanCoverage(Primary(seqs, PrimaryNames[j])) < score)
  {
    if k > 0 {
      BestUpToFacts(seqs, k - 1);
    }
  }

  /**
   * The selection is the best primary sequence, or the combined or front sequence when
   * fallback applies; none at all when no primary sequence beats -1 and fallback does not
   * apply.
   */
  lemma SelectionForFacts(seqs: Sequences, config: NavigationConfig)
    ensures var r := SelectionFor(seqs, config);
      (forall j | 0 <= j < |PrimaryNames| :: Primary(seqs, PrimaryNames[j]) == []) ==>
        r == if config.useFrontFallback && -1.0 < config.minCoverageThreshold && seqs.front != []
             then Selection(Some(FrontSeq), seqs.front, true)
             else Selection(None, [], false)
    ensures forall b | IsBestPrimary(seqs, b) ::
      var best := Primary(seqs, PrimaryNames[b]);
      SelectionFor(seqs, config) ==
        if config.useFrontFallback && MeanCoverage(best) < config.minCoverageThreshold && seqs.front != []
        then CreateCombinedSequenceAsWritten(best, seqs.front, PrimaryNames[b])
        else Selection(Some(PrimaryNames[b]), best, false)
    ensures (exists j | 0 <= j < |PrimaryNames| && Primary(seqs, PrimaryNames[j]) != [] ::
               MeanCoverage(Primary(seqs, PrimaryNames[j])) > -1.0) ==>
              SelectionFor(seqs, config).name.Some?
  {
    BestUpToFacts(seqs, |PrimaryNames|);
    var b := BestUpTo(seqs, |PrimaryNames|).1;
    if b >= 0 {
      assert IsBestPrimary(seqs, b);
      BestIsUnique(seqs, b);
    } else {
      NoBest(seqs);
    }
  }

  /** At most one primary sequence is the best one. */
  lemma BestIsUnique(seqs: Sequences, b: int)
    requires IsBestPrimary(seqs, b)
    ensures forall c | IsBestPrimary(seqs, c) :: c == b
  {
    forall c | IsBestPrimary(seqs, c)
      ensures c == b
    {
      var mb, mc := MeanCoverage(Primary(seqs, PrimaryNames[b])), MeanCoverage(Primary(seqs, PrimaryNames[c]));
      assert c < b ==> mc < mb && mb <= mc;
      assert b < c ==> mb < mc && mc <= mb;
    }
  }

  /** When no non-empty primary sequence beats the initial score, none is the best. */
  lemma NoBest(seqs: Sequences)
    requires forall j | 0 <= j < |PrimaryNames| && Primary(seqs, PrimaryNames[j]) != [] ::
      MeanCoverage(Primary(seqs, PrimaryNames[j])) <= -1.0
    ensures forall c :: !IsBestPrimary(seqs, c)
  {
  }

  /** With non-negative coverage ratios the mean is non-negative, so a non-empty sequence always beats the initial score of -1. */
  lemma {:induction false} MeanNonNegative(s: seq<LandmarkWithCoverage>)
    requires s != [] && forall lm | lm in s :: lm.coverageRatio >= 0.0
    ensures MeanCoverage(s) >= 0.0
  {
    SumNonNegative(s);
  }

  lemma {:induction false} SumNonNegative(s: seq<LandmarkWithCoverage>)
    requires forall lm | lm in s :: lm.coverageRatio >= 0.0
    ensures SumCoverage(s) >= 0.0
  {
    if s != [] {
      assert s[0] in s;
      assert forall lm | lm in s[1..] :: lm in s;
      SumNonNegative(s[1..]);
    }
  }

  /** The first element of `s` with the largest key, as Python's `max(s, key=...)`. */
  function FirstMaxBy<T>(s: seq<T>, key: T -> real): (r: T)
    requires s != []
    ensures r in s && forall y | y in s :: key(y) <= key(r)
  {
    if |s| == 1 then s[0]
    else
      var rest := FirstMaxBy(s[1..], key);
      assert forall y | y in s :: y == s[0] || y in s[1..];
      if key(s[0]) >= key(rest) then s[0] else rest
  }

  /** The first element of `s` with the smallest key, as Python's `min(s, key=...)`. */
  function FirstMinBy<T>(s: seq<T>, key: T -> real): (r: T)
    requires s != []
    ensures r in s && forall y | y in s :: key(r) <= key(y)
  {
    if |s| == 1 then s[0]
    else
      var rest := FirstMinBy(s[1..], key);
      assert forall y | y in s :: y == s[0] || y in s[1..];
      if key(s[0]) <= key(rest) then s[0] else rest
  }

  /**
   * `_create_combined_sequence` as written: pass the best-covered landmark of the primary
   * sequence, then walk to the front landmark with the LARGEST priority number, which is
   * the least important one.
   */
  function CreateCombinedSequenceAsWritten(lowCoverage: seq<LandmarkWithCoverage>, front: seq<LandmarkWithCoverage>,
                                           primarySide: SeqName): (r: Selection)
    requires lowCoverage != [] && front != []
    ensures r.name == Some(ToFront(primarySide)) && r.isFallback && |r.sequence| == 2
    ensures r.sequence[0] in lowCoverage &&
      forall lm | lm in lowCoverage :: lm.coverageRatio <= r.sequence[0].coverageRatio
    ensures r.sequence[1] in front &&
      forall lm | lm in front :: GetLandmarkPriority(lm.cell) <= GetLandmarkPriority(r.sequence[1].cell)
  {
    var primary := FirstMaxBy(lowCoverage, CoverageKey);
    var target := FirstMaxBy(front, PriorityKey);
    Selection(Some(ToFront(primarySide)), [primary, target], true)
  }

  /**
   * The combined sequence as its own comment describes it: pass the best-covered landmark
   * of the primary sequence, then walk to the most important front landmark (the smallest
   * priority number, the first such one on ties).
   */
  function CreateCombinedSequence(lowCoverage: seq<LandmarkWithCoverage>, front: seq<LandmarkWithCoverage>,
                                  primarySide: SeqName): (r: Selection)
    requires lowCoverage != [] && front != []
    ensures r.name == Some(ToFront(primarySide)) && r.isFallback && |r.sequence| == 2
    ensures r.sequence[0] in lowCoverage &&
      forall lm | lm in lowCoverage :: lm.coverageRatio <= r.sequence[0].coverageRatio
    ensures r.sequence[1] in front &&
      forall lm | lm in front :: GetLandmarkPriority(r.sequence[1].cell) <= GetLandmarkPriority(lm.cell)
  {
    var primary := FirstMaxBy(lowCoverage, CoverageKey);
    var target := FirstMinBy(front, PriorityKey);
    Selection(Some(ToFront(primarySide)), [primary, target], true)
  }

  /**
   * The as-written choice walks to the least important front landmark: with a booth and a
   * hall in front, it names the booth although the hall ranks higher.
   */
  lemma CombinedSequencePicksLeastImportant(pass: LandmarkWithCoverage, booth: Cell, hall: Cell)
    requires booth.cellType == "booth" && booth.unitW == 1 && booth.unitH == 1
    requires hall.cellType == "exp hall" && hall.unitW == 4 && hall.unitH == 4
    ensures
      var front := [LandmarkWithCoverage(hall, Front, 1.0, [0]), LandmarkWithCoverage(booth, Front, 1.0, [0])];
      CreateCombinedSequenceAsWritten([pass], front, LeftSeq).sequence[1].cell == booth &&
      CreateCombinedSequence([pass], front, LeftSeq).sequence[1].cell == hall &&
      GetLandmarkPriority(hall) < GetLandmarkPriority(booth)
  {
  }
}
