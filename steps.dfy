/**
 * The splitting of a unit path into navigation steps (core/navigation.py, `analyze_route`),
 * as a function of the grid and the route.
 *
 * The interior points where the path turns left or right are the turn points. The steps
 * are: an orientation step when the first turn is more than three units away and a
 * landmark is in sight at the start; per turn point, a continue step up to it and the turn
 * itself with the landmark to look for; a continue step over the last leg; and the
 * arrival, with the destination's side when the route names a destination cell.
 */
module RouteSteps {
  import opened Wrappers
  import opened Grid
  import opened Geometry
  import opened Nearby
  import Pathfinder

  // ---------------------------------------------------------------------------------------
  // Steps

  /** A landmark named by a step: its cell index, its stored name and its side. */
  datatype LandmarkInfo = LandmarkInfo(idx: int, name: Option<string>, side: Side)

  /** What a step tells the walker to do. */
  datatype Action = Orient | Continue | TurnTo(dir: Turn) | Arrive

  /** One instruction of the route: its number, action, distance in units and what it refers to. */
  datatype NavigationStep = NavigationStep(
    stepId: int,
    action: Action,
    distanceUnits: int,
    landmark: Option<LandmarkInfo>,
    direction: Option<Heading>)

  // ---------------------------------------------------------------------------------------
  // Turn points

  /** The turn the path makes at interior point i. */
  function TurnAt(path: seq<Pos>, i: int): Turn
    requires 1 <= i < |path| - 1
  {
    DetectTurnDirection(path[i - 1], path[i], path[i + 1])
  }

  /** The interior points below k at which the path turns, with the turn, in path order. */
  function TurnPointsBelow(path: seq<Pos>, k: int): (r: seq<(int, Turn)>)
    requires 1 <= k <= |path| - 1
    ensures forall j | 0 <= j < |r| :: 1 <= r[j].0 < k
    decreases k
  {
    if k == 1 then []
    else
      var i := k - 1;
      TurnPointsBelow(path, k - 1) + if TurnAt(path, i) != Straight then [(i, TurnAt(path, i))] else []
  }

  function TurnPoints(path: seq<Pos>): (r: seq<(int, Turn)>)
    requires |path| >= 2
    ensures forall j | 0 <= j < |r| :: 1 <= r[j].0 < |path| - 1
  {
    TurnPointsBelow(path, |path| - 1)
  }

  /** `tps` lists, in strictly increasing order, interior points of `path` where it turns, with the turn. */
  predicate TurnPointsOf(path: seq<Pos>, tps: seq<(int, Turn)>) {
    && (forall j | 0 <= j < |tps| :: 1 <= tps[j].0 < |path| - 1 && tps[j].1 == TurnAt(path, tps[j].0) != Straight)
    && (forall a, b | 0 <= a < b < |tps| :: tps[a].0 < tps[b].0)
  }

  /** The turn points are interior points where the path turns, listed in increasing order with their turn. */
  lemma {:induction false} TurnPointsSound(path: seq<Pos>, k: int)
    requires 1 <= k <= |path| - 1
    ensures TurnPointsOf(path, TurnPointsBelow(path, k))
    decreases k
  {
    if k > 1 {
      TurnPointsSound(path, k - 1);
    }
  }

  /** Every interior point where the path does not go straight on is a turn point. */
  lemma {:induction false} TurnPointsComplete(path: seq<Pos>, k: int)
    requires 1 <= k <= |path| - 1
    ensures forall i | 1 <= i < k :: TurnAt(path, i) != Straight <==> (i, TurnAt(path, i)) in TurnPointsBelow(path, k)
    decreases k
  {
    if k > 1 {
      TurnPointsComplete(path, k - 1);
      var prev := TurnPointsBelow(path, k - 1);
      var added := if TurnAt(path, k - 1) != Straight then [(k - 1, TurnAt(path, k - 1))] else [];
      assert TurnPointsBelow(path, k) == prev + added;
      assert (k - 1, TurnAt(path, k - 1)) !in prev;
    }
  }

  // ---------------------------------------------------------------------------------------
  // Choosing a landmark

  /** The first landmark of `ls` on side `side`, if any. */
  function FirstWithSide(ls: seq<(Cell, Side)>, side: Side): (r: Option<(Cell, Side)>)
    ensures r.None? <==> forall j | 0 <= j < |ls| :: ls[j].1 != side
    ensures r.Some? ==> exists j | 0 <= j < |ls| ::
      (ls[j] == r.value && r.value.1 == side && forall i | 0 <= i < j :: ls[i].1 != side)
  {
    if ls == [] then None
    else if ls[0].1 == side then Some(ls[0])
    else
      var r := FirstWithSide(ls[1..], side);
      assert forall j | 1 <= j < |ls| :: ls[j] == ls[1..][j - 1];
      r
  }

  /** The first landmark of `ls` with cell index `idx`, if any. */
  function FirstWithIdx(ls: seq<(Cell, Side)>, idx: int): (r: Option<(Cell, Side)>)
    ensures r.None? <==> forall j | 0 <= j < |ls| :: ls[j].0.idx != idx
    ensures r.Some? ==> r.value in ls && r.value.0.idx == idx
  {
    if ls == [] then None
    else if ls[0].0.idx == idx then Some(ls[0])
    else
      var r := FirstWithIdx(ls[1..], idx);
      assert forall j | 1 <= j < |ls| :: ls[j] == ls[1..][j - 1];
      r
  }

  /** The landmark to name at the start: the first in front, else the first found. */
  function PickStartLandmark(ls: seq<(Cell, Side)>): (r: Option<(Cell, Side)>)
    ensures r.None? <==> ls == []
    ensures r.Some? ==> r.value in ls
  {
    if ls == [] then None
    else
      var front := FirstWithSide(ls, Front);
      if front.Some? then front else Some(ls[0])
  }

  /** The first landmark of `ls` on the side the walker turns to. */
  function SameSide(ls: seq<(Cell, Side)>, dir: Turn): Option<(Cell, Side)> {
    match dir
    case TurnLeft => FirstWithSide(ls, Left)
    case TurnRight => FirstWithSide(ls, Right)
    case Straight => None
  }

  /** The side a turn turns to: left for a left turn, right otherwise. */
  function TurnSide(dir: Turn): Side {
    if dir == TurnLeft then Left else Right
  }

  /**
   * The same-side landmark is the first landmark found on the side turned to; there is
   * none when the walker goes straight or nothing lies on that side.
   */
  lemma SameSideIsFirstOnTurnSide(ls: seq<(Cell, Side)>, dir: Turn)
    ensures SameSide(ls, dir).Some? ==>
      dir != Straight && SameSide(ls, dir).value in ls && SameSide(ls, dir).value.1 == TurnSide(dir) &&
      exists j | 0 <= j < |ls| :: ls[j] == SameSide(ls, dir).value && forall i | 0 <= i < j :: ls[i].1 != TurnSide(dir)
    ensures SameSide(ls, dir).None? <==> dir == Straight || forall j | 0 <= j < |ls| :: ls[j].1 != TurnSide(dir)
  {
  }

  /** The landmark to name at a turn: the first in front, else the first on the side turned to, else the first found. */
  function PickTurnLandmark(ls: seq<(Cell, Side)>, dir: Turn): (r: Option<(Cell, Side)>)
    ensures r.None? <==> ls == []
    ensures r.Some? ==> r.value in ls
  {
    if ls == [] then None
    else
      var front := FirstWithSide(ls, Front);
      if front.Some? then front
      else
        var same := SameSide(ls, dir);
        if same.Some? then same else Some(ls[0])
  }

  /**
   * At the start, a landmark in front is preferred: the first of them when there is one,
   * else the first landmark found.
   */
  lemma PickStartPrefersFront(ls: seq<(Cell, Side)>)
    ensures (exists j | 0 <= j < |ls| :: ls[j].1 == Front) ==>
      PickStartLandmark(ls) == FirstWithSide(ls, Front) && PickStartLandmark(ls).value.1 == Front
    ensures (forall j | 0 <= j < |ls| :: ls[j].1 != Front) && ls != [] ==> PickStartLandmark(ls) == Some(ls[0])
  {
  }

  /**
   * At a turn, the first landmark in front is preferred, then the first on the side turned
   * to, then the first landmark found.
   */
  lemma PickTurnPrefersFrontThenSide(ls: seq<(Cell, Side)>, dir: Turn)
    ensures (exists j | 0 <= j < |ls| :: ls[j].1 == Front) ==>
      PickTurnLandmark(ls, dir) == FirstWithSide(ls, Front) && PickTurnLandmark(ls, dir).value.1 == Front
    ensures (forall j | 0 <= j < |ls| :: ls[j].1 != Front) && SameSide(ls, dir).Some? ==>
      PickTurnLandmark(ls, dir) == SameSide(ls, dir)
    ensures (forall j | 0 <= j < |ls| :: ls[j].1 != Front) && SameSide(ls, dir).None? && ls != [] ==>
      PickTurnLandmark(ls, dir) == Some(ls[0])
  {
  }

  function InfoOf(l: (Cell, Side)): LandmarkInfo {
    LandmarkInfo(l.0.idx, l.0.name, l.1)
  }

  /** The radius of the search for landmarks around a start or turn point. */
  const TurnSearchRadius := 2

  /**
   * A landmark search: the landmarks around a point when moving towards the next one,
   * within a radius. The steps are defined for any search; the analyser's is `NearbySearch`.
   */
  type Search = (Pos, Pos, int) -> seq<(Cell, Side)>

  function NearbySearch(cells: seq<Cell>): Search {
    (current: Pos, next: Pos, radius: int) => NearbyLandmarks(cells, current, next, radius)
  }

  // ---------------------------------------------------------------------------------------
  // The steps

  /** The steps so far, the number of the next step and the point of the path reached. */
  datatype Progress = Progress(steps: seq<NavigationStep>, nextId: int, currentPos: int)

  /** The orientation step: only when the first turn is more than three units in and a landmark is in sight at the start. */
  function OrientSteps(path: seq<Pos>, near: Search): seq<NavigationStep>
    requires |path| >= 2
  {
    var tps := TurnPoints(path);
    if tps != [] && tps[0].0 > 3 then
      match PickStartLandmark(near(path[0], path[1], TurnSearchRadius))
      case None => []
      case Some(l) => [NavigationStep(1, Orient, 0, Some(InfoOf(l)), None)]
    else []
  }

  /** The landmark named at turn point `tp`: the search of radius 2 around the point, picked by the turn. */
  function TurnLandmark(path: seq<Pos>, near: Search, tp: (int, Turn)): Option<LandmarkInfo>
    requires 1 <= tp.0 < |path|
  {
    var l := PickTurnLandmark(near(path[tp.0 - 1], path[tp.0], TurnSearchRadius), tp.1);
    if l.Some? then Some(InfoOf(l.value)) else None
  }

  function TurnLandmarkFn(path: seq<Pos>, near: Search): ((int, Turn)) -> Option<LandmarkInfo> {
    (tp: (int, Turn)) => if 1 <= tp.0 < |path| then TurnLandmark(path, near, tp) else None
  }

  /**
   * There is at most one orientation step: step 1, naming a landmark the search around the
   * start found, and only when the path turns and its first turn is more than three units in.
   */
  lemma OrientationOnLongFirstLeg(path: seq<Pos>, near: Search)
    requires |path| >= 2
    ensures var o := OrientSteps(path, near);
      && |o| <= 1
      && (o != [] ==> TurnPoints(path) != [] && TurnPoints(path)[0].0 > 3)
      && (o != [] ==> o[0].stepId == 1 && o[0].action == Orient && o[0].landmark.Some? &&
                      exists l | l in near(path[0], path[1], TurnSearchRadius) :: o[0].landmark == Some(InfoOf(l)))
  {
    var o := OrientSteps(path, near);
    if o != [] {
      var l := PickStartLandmark(near(path[0], path[1], TurnSearchRadius)).value;
      assert o[0].landmark == Some(InfoOf(l));
    }
  }

  /** The leg up to the turn point `tp` when there is one, then the turn, naming the landmark `look` gives for it. */
  function TurnInstructions(path: seq<Pos>, look: ((int, Turn)) -> Option<LandmarkInfo>, p: Progress, tp: (int, Turn)): Progress
    requires 0 <= p.currentPos < |path| && 1 <= tp.0 < |path|
  {
    var distance := tp.0 - p.currentPos;
    var leg := if distance > 0
      then [NavigationStep(p.nextId, Continue, distance, None, Some(GetDirectionName(path[p.currentPos], path[tp.0])))]
      else [];
    var id := p.nextId + |leg|;
    Progress(p.steps + leg + [NavigationStep(id, TurnTo(tp.1), 0, look(tp), None)], id + 1, tp.0)
  }

  /** The steps after the first n turn points. */
  function TurnsThrough(path: seq<Pos>, look: ((int, Turn)) -> Option<LandmarkInfo>, tps: seq<(int, Turn)>, start: Progress, n: int): (p: Progress)
    requires 0 <= n <= |tps| && 0 <= start.currentPos < |path|
    requires forall j | 0 <= j < |tps| :: 1 <= tps[j].0 < |path|
    ensures 0 <= p.currentPos < |path|
    decreases n
  {
    if n == 0 then start
    else TurnInstructions(path, look, TurnsThrough(path, look, tps, start, n - 1), tps[n - 1])
  }

  /** The last leg, up to the end of the path, when there is any of it left. */
  function FinalLeg(path: seq<Pos>, p: Progress): Progress
    requires |path| >= 2 && 0 <= p.currentPos < |path|
  {
    var distance := |path| - 1 - p.currentPos;
    if distance > 0 then
      var step := NavigationStep(p.nextId, Continue, distance, None, Some(GetDirectionName(path[p.currentPos], path[|path| - 1])));
      Progress(p.steps + [step], p.nextId + 1, |path| - 1)
    else p
  }

  /** The destination's cell index: the last cell of the route, when it has any. */
  function TargetOf(route: Pathfinder.RouteResult): (r: Option<int>)
    ensures r.Some? <==> route.route != []
  {
    if route.route != [] then Some(route.route[|route.route| - 1]) else None
  }

  /**
   * The destination as the source tests it: a last cell index of 0 is falsy and counts as
   * no destination.
   */
  function TargetOfAsWritten(route: Pathfinder.RouteResult): (r: Option<int>)
    ensures r == if TargetOf(route) == Some(0) then None else TargetOf(route)
  {
    if route.route != [] && route.route[|route.route| - 1] != 0 then Some(route.route[|route.route| - 1]) else None
  }

  /**
   * The landmark of the arrival: the destination cell (the last with its index), on the
   * side the search of radius 1 around the end finds it, or in front when it does not.
   */
  function ArrivalFor(cells: seq<Cell>, path: seq<Pos>, target: Option<int>): Option<LandmarkInfo>
    requires |path| >= 2
  {
    match target
    case None => None
    case Some(t) =>
      match LastByIdx(cells, t)
      case None => None
      case Some(tc) =>
        var found := FirstWithIdx(NearbyLandmarks(cells, path[|path| - 2], path[|path| - 1], 1), t);
        Some(LandmarkInfo(tc.idx, tc.name, if found.Some? then found.value.1 else Front))
  }

  /** Everything before the arrival: the orientation, the legs and turns, the last leg. */
  function Legs(path: seq<Pos>, near: Search): Progress
    requires |path| >= 2
  {
    var tps := TurnPoints(path);
    var orient := OrientSteps(path, near);
    FinalLeg(path, TurnsThrough(path, TurnLandmarkFn(path, near), tps, Progress(orient, |orient| + 1, 0), |tps|))
  }

  /** The steps of a unit path, for a given search and arrival landmark; a single arrival for fewer than two points. */
  function StepsWith(path: seq<Pos>, near: Search, arrival: Option<LandmarkInfo>): seq<NavigationStep> {
    if |path| < 2 then [NavigationStep(1, Arrive, 0, None, None)]
    else
      var f := Legs(path, near);
      f.steps + [NavigationStep(f.nextId, Arrive, 0, arrival, None)]
  }

  /** The steps of a route through the grid `cells`. */
  function NavigationSteps(cells: seq<Cell>, route: Pathfinder.RouteResult): seq<NavigationStep> {
    var path := route.unitPath;
    StepsWith(path, NearbySearch(cells), if |path| >= 2 then ArrivalFor(cells, path, TargetOfAsWritten(route)) else None)
  }

  // ---------------------------------------------------------------------------------------
  // What the steps add up to

  /** Steps numbered 1, 2, ... in order, `nextId` the number after the last. */
  predicate Numbered(steps: seq<NavigationStep>, nextId: int) {
    nextId == |steps| + 1 && forall j | 0 <= j < |steps| :: steps[j].stepId == j + 1
  }

  /** The total distance of the continue steps. */
  function ContinueTotal(steps: seq<NavigationStep>): int {
    if steps == [] then 0
    else
      var last := steps[|steps| - 1];
      ContinueTotal(steps[..|steps| - 1]) + (if last.action == Continue then last.distanceUnits else 0)
  }

  /** The turns of the turn steps, in order. */
  function TurnActions(steps: seq<NavigationStep>): seq<Turn> {
    if steps == [] then []
    else
      var last := steps[|steps| - 1];
      TurnActions(steps[..|steps| - 1]) + (if last.action.TurnTo? then [last.action.dir] else [])
  }

  /** The turns of the turn points, in order. */
  function Dirs(tps: seq<(int, Turn)>): seq<Turn> {
    if tps == [] then [] else Dirs(tps[..|tps| - 1]) + [tps[|tps| - 1].1]
  }

  /** No step is an arrival. */
  predicate NoArrival(steps: seq<NavigationStep>) {
    forall j | 0 <= j < |steps| :: steps[j].action != Arrive
  }

  lemma {:induction false} ContinueTotalAppend(a: seq<NavigationStep>, b: seq<NavigationStep>)
    ensures ContinueTotal(a + b) == ContinueTotal(a) + ContinueTotal(b)
    ensures TurnActions(a + b) == TurnActions(a) + TurnActions(b)
    decreases |b|
  {
    if b == [] {
      assert a + b == a;
    } else {
      var init := b[..|b| - 1];
      ContinueTotalAppend(a, init);
      assert (a + b)[..|a + b| - 1] == a + init;
    }
  }

  /** One leg and turn: numbering, continue total, turns and no arrival all carried along. */
  lemma TurnInstructionsFacts(path: seq<Pos>, look: ((int, Turn)) -> Option<LandmarkInfo>, p: Progress, tp: (int, Turn))
    requires 0 <= p.currentPos < tp.0 < |path|
    requires Numbered(p.steps, p.nextId) && NoArrival(p.steps)
    ensures var p' := TurnInstructions(path, look, p, tp);
      && Numbered(p'.steps, p'.nextId) && NoArrival(p'.steps) && p'.currentPos == tp.0
      && ContinueTotal(p'.steps) == ContinueTotal(p.steps) + tp.0 - p.currentPos
      && TurnActions(p'.steps) == TurnActions(p.steps) + [tp.1]
  {
    var p' := TurnInstructions(path, look, p, tp);
    var leg := NavigationStep(p.nextId, Continue, tp.0 - p.currentPos, None, Some(GetDirectionName(path[p.currentPos], path[tp.0])));
    var turn := p'.steps[|p'.steps| - 1];
    assert p'.steps == p.steps + [leg, turn];
    ContinueTotalAppend(p.steps, [leg, turn]);
    assert [leg, turn][..1] == [leg];
    assert [leg][..0] == [];
  }

  /** Turn points inside the path, strictly increasing. */
  predicate Ascending(path: seq<Pos>, tps: seq<(int, Turn)>) {
    && (forall j | 0 <= j < |tps| :: 1 <= tps[j].0 < |path|)
    && (forall a, b | 0 <= a < b < |tps| :: tps[a].0 < tps[b].0)
  }

  /**
   * `p` extends `start` by steps numbered on from it, none of them an arrival, reaching
   * point `pos`, with continue distances covering the way there and the turns `dirs`.
   */
  predicate Accounted(start: Progress, p: Progress, pos: int, dirs: seq<Turn>) {
    && Numbered(p.steps, p.nextId) && NoArrival(p.steps) && p.currentPos == pos
    && ContinueTotal(p.steps) == ContinueTotal(start.steps) + pos - start.currentPos
    && TurnActions(p.steps) == TurnActions(start.steps) + dirs
  }

  /** The first n turn points, each more advanced than the one before: the same facts, summed. */
  lemma {:induction false} TurnsThroughFacts(path: seq<Pos>, look: ((int, Turn)) -> Option<LandmarkInfo>, tps: seq<(int, Turn)>, start: Progress, n: int)
    requires 0 <= n <= |tps| && 0 <= start.currentPos < |path| && Ascending(path, tps)
    requires tps != [] ==> start.currentPos < tps[0].0
    requires Numbered(start.steps, start.nextId) && NoArrival(start.steps)
    ensures Accounted(start, TurnsThrough(path, look, tps, start, n), if n == 0 then start.currentPos else tps[n - 1].0, Dirs(tps[..n]))
    decreases n
  {
    if n == 0 {
      assert TurnActions(start.steps) + Dirs(tps[..0]) == TurnActions(start.steps);
    } else {
      TurnsThroughFacts(path, look, tps, start, n - 1);
      TurnsThroughStep(path, look, tps, start, n);
    }
  }

  lemma AppendAssoc<T>(a: seq<T>, b: seq<T>, c: seq<T>)
    ensures a + (b + c) == (a + b) + c
  {
  }

  /** One more turn point taken into account. */
  lemma TurnsThroughStep(path: seq<Pos>, look: ((int, Turn)) -> Option<LandmarkInfo>, tps: seq<(int, Turn)>, start: Progress, n: int)
    requires 0 < n <= |tps| && 0 <= start.currentPos < |path| && Ascending(path, tps)
    requires start.currentPos < tps[0].0
    requires Accounted(start, TurnsThrough(path, look, tps, start, n - 1), if n == 1 then start.currentPos else tps[n - 2].0, Dirs(tps[..n - 1]))
    ensures Accounted(start, TurnsThrough(path, look, tps, start, n), tps[n - 1].0, Dirs(tps[..n]))
  {
    var p := TurnsThrough(path, look, tps, start, n - 1);
    var tp := tps[n - 1];
    assert p.currentPos < tp.0 by {
      if n > 1 {
        assert tps[n - 2].0 < tps[n - 1].0;
      }
    }
    TurnInstructionsFacts(path, look, p, tp);
    assert Dirs(tps[..n]) == Dirs(tps[..n - 1]) + [tp.1] by {
      assert tps[..n][..n - 1] == tps[..n - 1];
    }
    AppendAssoc(TurnActions(start.steps), Dirs(tps[..n - 1]), [tp.1]);
  }

  /** The turn points lie inside the path, in increasing order. */
  lemma TurnPointsAscending(path: seq<Pos>)
    requires |path| >= 2
    ensures Ascending(path, TurnPoints(path))
  {
    TurnPointsSound(path, |path| - 1);
  }

  /** The orientation step, when there is one, is step 1 and neither moves nor turns. */
  lemma OrientFacts(path: seq<Pos>, near: Search)
    requires |path| >= 2
    ensures var o := OrientSteps(path, near);
      Numbered(o, |o| + 1) && NoArrival(o) && TurnActions(o) == [] && ContinueTotal(o) == 0
  {
    var o := OrientSteps(path, near);
    if o != [] {
      assert o[..0] == [];
    }
  }

  /** The last leg, when there is one, takes the walker to the end of the path. */
  lemma FinalLegFacts(path: seq<Pos>, start: Progress, p: Progress, dirs: seq<Turn>)
    requires |path| >= 2 && 0 <= p.currentPos < |path|
    requires Accounted(start, p, p.currentPos, dirs)
    ensures Accounted(start, FinalLeg(path, p), |path| - 1, dirs)
  {
    var f := FinalLeg(path, p);
    if |path| - 1 - p.currentPos > 0 {
      var step := f.steps[|f.steps| - 1];
      assert f.steps == p.steps + [step];
      ContinueTotalAppend(p.steps, [step]);
      assert [step][..0] == [];
    }
  }

  /**
   * Everything before the arrival is numbered from 1, holds no arrival, turns at every
   * turn point in order, and its continue distances add up to the path's length.
   */
  lemma LegsFacts(path: seq<Pos>, near: Search)
    requires |path| >= 2
    ensures Accounted(Progress([], 1, 0), Legs(path, near), |path| - 1, Dirs(TurnPoints(path)))
  {
    var tps := TurnPoints(path);
    var orient := OrientSteps(path, near);
    var start := Progress(orient, |orient| + 1, 0);
    TurnPointsAscending(path);
    OrientFacts(path, near);
    TurnsThroughFacts(path, TurnLandmarkFn(path, near), tps, start, |tps|);
    var p := TurnsThrough(path, TurnLandmarkFn(path, near), tps, start, |tps|);
    assert tps[..|tps|] == tps;
    assert TurnActions(orient) + Dirs(tps) == Dirs(tps);
    assert Accounted(Progress([], 1, 0), p, p.currentPos, Dirs(tps));
    FinalLegFacts(path, Progress([], 1, 0), p, Dirs(tps));
    assert Legs(path, near) == FinalLeg(path, p);
  }

  /**
   * Whatever the searches find, the steps are numbered 1 to n in order, the last and only
   * the last is the arrival, and a path of fewer than two points gives the arrival alone.
   */
  lemma StepsNumbered(path: seq<Pos>, near: Search, arrival: Option<LandmarkInfo>)
    ensures var s := StepsWith(path, near, arrival);
      && s != [] && s[|s| - 1].action == Arrive && NoArrival(s[..|s| - 1])
      && (forall j | 0 <= j < |s| :: s[j].stepId == j + 1)
      && (|path| < 2 ==> |s| == 1)
  {
    if |path| >= 2 {
      LegsFacts(path, near);
      ArrivalAppended(Legs(path, near), arrival);
    }
  }

  /** The arrival appended to numbered steps without one is the last step, numbered on. */
  lemma ArrivalAppended(f: Progress, arrival: Option<LandmarkInfo>)
    requires Numbered(f.steps, f.nextId) && NoArrival(f.steps)
    ensures var s := f.steps + [NavigationStep(f.nextId, Arrive, 0, arrival, None)];
      && s[|s| - 1].action == Arrive && NoArrival(s[..|s| - 1])
      && (forall j | 0 <= j < |s| :: s[j].stepId == j + 1)
  {
    var s := f.steps + [NavigationStep(f.nextId, Arrive, 0, arrival, None)];
    assert s[..|s| - 1] == f.steps;
    forall j | 0 <= j < |s|
      ensures s[j].stepId == j + 1
    {
      if j < |f.steps| {
        assert s[j] == f.steps[j];
      }
    }
  }

  /** The steps of a path of two or more points end with the arrival naming `arrival`. */
  lemma StepsEndWithArrival(path: seq<Pos>, near: Search, arrival: Option<LandmarkInfo>)
    requires |path| >= 2
    ensures var s := StepsWith(path, near, arrival);
      s != [] && s[|s| - 1].action == Arrive && s[|s| - 1].landmark == arrival
  {
  }

  /**
   * Whatever the searches find, there is one turn step per turn point, in path order, and
   * the continue distances add up to one less than the number of points of the path.
   */
  lemma StepsCoverPath(path: seq<Pos>, near: Search, arrival: Option<LandmarkInfo>)
    requires |path| >= 2
    ensures TurnActions(StepsWith(path, near, arrival)) == Dirs(TurnPoints(path))
    ensures ContinueTotal(StepsWith(path, near, arrival)) == |path| - 1
  {
    var s := StepsWith(path, near, arrival);
    var f := Legs(path, near);
    LegsFacts(path, near);
    var arrive := s[|s| - 1];
    assert s == f.steps + [arrive];
    ContinueTotalAppend(f.steps, [arrive]);
    assert [arrive][..0] == [];
  }

  /** A path that never turns gives one continue step over its whole length, then the arrival. */
  lemma StraightPathSteps(path: seq<Pos>, near: Search, arrival: Option<LandmarkInfo>)
    requires |path| >= 2 && TurnPoints(path) == []
    ensures StepsWith(path, near, arrival) == [
      NavigationStep(1, Continue, |path| - 1, None, Some(GetDirectionName(path[0], path[|path| - 1]))),
      NavigationStep(2, Arrive, 0, arrival, None)]
  {
    var start := Progress([], 1, 0);
    assert OrientSteps(path, near) == [];
    assert TurnsThrough(path, TurnLandmarkFn(path, near), [], start, 0) == start;
    assert Legs(path, near) == FinalLeg(path, start);
  }

  /** A path of two points never turns. */
  lemma TwoPointsNoTurn(path: seq<Pos>)
    requires |path| == 2
    ensures TurnPoints(path) == []
  {
  }

  /**
   * A step worth a sentence: an orientation naming a landmark, a continue step that moves,
   * a turn to the left or right, or the arrival.
   */
  predicate Speaks(s: NavigationStep) {
    match s.action
    case Orient => s.landmark.Some?
    case Continue => s.distanceUnits > 0
    case TurnTo(d) => d != Straight
    case Arrive => true
  }

  predicate AllSpeak(steps: seq<NavigationStep>) {
    forall j | 0 <= j < |steps| :: Speaks(steps[j])
  }

  /** Turning at points that turn keeps every step worth a sentence. */
  lemma {:induction false} TurnsThroughSpeak(path: seq<Pos>, look: ((int, Turn)) -> Option<LandmarkInfo>, tps: seq<(int, Turn)>, start: Progress, n: int)
    requires 0 <= n <= |tps| && 0 <= start.currentPos < |path|
    requires forall j | 0 <= j < |tps| :: 1 <= tps[j].0 < |path| && tps[j].1 != Straight
    requires AllSpeak(start.steps)
    ensures AllSpeak(TurnsThrough(path, look, tps, start, n).steps)
    decreases n
  {
    if n > 0 {
      TurnsThroughSpeak(path, look, tps, start, n - 1);
    }
  }

  /** Everything before the arrival is worth a sentence step by step. */
  lemma LegsSpeak(path: seq<Pos>, near: Search)
    requires |path| >= 2
    ensures AllSpeak(Legs(path, near).steps)
  {
    var tps := TurnPoints(path);
    var orient := OrientSteps(path, near);
    OrientSpeaks(path, near);
    TurnPointsTurn(path);
    var look := TurnLandmarkFn(path, near);
    var start := Progress(orient, |orient| + 1, 0);
    TurnsThroughSpeak(path, look, tps, start, |tps|);
    FinalLegSpeaks(path, TurnsThrough(path, look, tps, start, |tps|));
  }

  /** An orientation step names its landmark. */
  lemma OrientSpeaks(path: seq<Pos>, near: Search)
    requires |path| >= 2
    ensures AllSpeak(OrientSteps(path, near))
  {
    OrientationOnLongFirstLeg(path, near);
  }

  /** Every turn point lies inside the path and turns. */
  lemma TurnPointsTurn(path: seq<Pos>)
    requires |path| >= 2
    ensures forall j | 0 <= j < |TurnPoints(path)| :: 1 <= TurnPoints(path)[j].0 < |path| && TurnPoints(path)[j].1 != Straight
  {
    TurnPointsSound(path, |path| - 1);
  }

  /** The last leg, when there is one, moves. */
  lemma FinalLegSpeaks(path: seq<Pos>, p: Progress)
    requires |path| >= 2 && 0 <= p.currentPos < |path| && AllSpeak(p.steps)
    ensures AllSpeak(FinalLeg(path, p).steps)
  {
  }

  /** Every step of a route is worth a sentence: legs move, turns turn, an orientation names its landmark. */
  lemma StepsSpeak(path: seq<Pos>, near: Search, arrival: Option<LandmarkInfo>)
    ensures AllSpeak(StepsWith(path, near, arrival))
  {
    if |path| >= 2 {
      var f := Legs(path, near);
      LegsSpeak(path, near);
      var s := StepsWith(path, near, arrival);
      assert s == f.steps + [NavigationStep(f.nextId, Arrive, 0, arrival, None)];
    }
  }

  // ---------------------------------------------------------------------------------------
  // The destination test

  /** With the test as written, a route ending at the cell of index 0 arrives without naming its destination. */
  lemma ArrivalAtIndexZero(cells: seq<Cell>, path: seq<Pos>, route: Pathfinder.RouteResult)
    requires |path| >= 2 && route.route == [0] && LastByIdx(cells, 0).Some?
    ensures ArrivalFor(cells, path, TargetOfAsWritten(route)) == None
    ensures ArrivalFor(cells, path, TargetOf(route)).Some?
  {
  }

  /**
   * With the test as written, the arrival names the destination exactly when the route has
   * cells, the last one's index is not 0 and a cell of the grid carries it; otherwise it
   * is the arrival of the corrected test.
   */
  lemma ArrivalAsWritten(cells: seq<Cell>, path: seq<Pos>, route: Pathfinder.RouteResult)
    requires |path| >= 2
    ensures ArrivalFor(cells, path, TargetOfAsWritten(route)).Some? <==>
      route.route != [] && route.route[|route.route| - 1] != 0 &&
      exists i | 0 <= i < |cells| :: cells[i].idx == route.route[|route.route| - 1]
    ensures ArrivalFor(cells, path, TargetOfAsWritten(route)) ==
      if TargetOf(route) == Some(0) then None else ArrivalFor(cells, path, TargetOf(route))
  {
    ArrivalNamesDestination(cells, path, route);
  }

  /**
   * The arrival names the destination exactly when the route has cells and a cell of the
   * grid carries the last one's index, that cell being the last such in the grid.
   */
  lemma ArrivalNamesDestination(cells: seq<Cell>, path: seq<Pos>, route: Pathfinder.RouteResult)
    requires |path| >= 2
    ensures ArrivalFor(cells, path, TargetOf(route)).Some? <==>
      route.route != [] && exists i | 0 <= i < |cells| :: cells[i].idx == route.route[|route.route| - 1]
    ensures ArrivalFor(cells, path, TargetOf(route)).Some? ==>
      ArrivalFor(cells, path, TargetOf(route)).value.idx == route.route[|route.route| - 1]
  {
    if route.route != [] {
      ArrivalForIndex(cells, path, route.route[|route.route| - 1]);
    }
  }

  /** For a destination index `t`, the arrival exists exactly when a cell carries `t`, and names it. */
  lemma ArrivalForIndex(cells: seq<Cell>, path: seq<Pos>, t: int)
    requires |path| >= 2
    ensures ArrivalFor(cells, path, Some(t)).Some? <==> exists i | 0 <= i < |cells| :: cells[i].idx == t
    ensures ArrivalFor(cells, path, Some(t)).Some? ==> ArrivalFor(cells, path, Some(t)).value.idx == t
  {
    var lc := LastByIdx(cells, t);
    if lc.None? {
      assert forall i | 0 <= i < |cells| :: cells[i].idx != t;
    }
  }
}
