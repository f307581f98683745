/**
 * The integer geometry of the route narrator (core/navigation.py): turn detection by the
 * sign of a cross product, compass names of a move, the side of a landmark relative to a
 * direction of travel, and the points sampled along a straight segment.
 *
 * Grid units are (col, row) with rows growing downwards, so a positive cross product is a
 * turn to the right.
 */
module Geometry {

  type Pos = (int, int)

  function Sub(p: Pos, q: Pos): Pos {
    (p.0 - q.0, p.1 - q.1)
  }

  function Dot(a: Pos, b: Pos): int {
    a.0 * b.0 + a.1 * b.1
  }

  /** The z component of the cross product of a and b. */
  function Cross(a: Pos, b: Pos): int {
    a.0 * b.1 - a.1 * b.0
  }

  /** The squared Euclidean length. */
  function Norm2(a: Pos): int {
    a.0 * a.0 + a.1 * a.1
  }

  // ---------------------------------------------------------------------------------------
  // Turns and compass names

  datatype Turn = TurnLeft | TurnRight | Straight

  /** The turn taken at p2 when walking p1 -> p2 -> p3. */
  function DetectTurnDirection(p1: Pos, p2: Pos, p3: Pos): Turn {
    var cross := Cross(Sub(p2, p1), Sub(p3, p2));
    if cross > 0 then TurnRight
    else if cross < 0 then TurnLeft
    else Straight
  }

  function OppositeTurn(t: Turn): Turn {
    match t
    case TurnLeft => TurnRight
    case TurnRight => TurnLeft
    case Straight => Straight
  }

  /** Walking the same three points backwards turns the other way. */
  lemma TurnReversed(p1: Pos, p2: Pos, p3: Pos)
    ensures DetectTurnDirection(p3, p2, p1) == OppositeTurn(DetectTurnDirection(p1, p2, p3))
  {
    assert Cross(Sub(p2, p3), Sub(p1, p2)) == -Cross(Sub(p2, p1), Sub(p3, p2));
  }

  /** A path that keeps its direction goes straight; a quarter turn is a right or a left turn. */
  lemma TurnExamples()
    ensures DetectTurnDirection((0, 0), (1, 0), (2, 0)) == Straight
    ensures DetectTurnDirection((0, 0), (1, 0), (1, 1)) == TurnRight
    ensures DetectTurnDirection((0, 0), (1, 0), (1, -1)) == TurnLeft
  {
  }

  /** Three points on one line, in order, never make a turn. */
  lemma CollinearIsStraight(p: Pos, d: Pos, k1: nat, k2: nat)
    ensures DetectTurnDirection(p, (p.0 + k1 * d.0, p.1 + k1 * d.1), (p.0 + (k1 + k2) * d.0, p.1 + (k1 + k2) * d.1)) == Straight
  {
    var v1 := (k1 * d.0, k1 * d.1);
    var v2 := (k2 * d.0, k2 * d.1);
    assert Sub((p.0 + k1 * d.0, p.1 + k1 * d.1), p) == v1;
    assert Sub((p.0 + (k1 + k2) * d.0, p.1 + (k1 + k2) * d.1), (p.0 + k1 * d.0, p.1 + k1 * d.1)) == v2;
    calc {
      Cross(v1, v2);
      k1 * d.0 * (k2 * d.1) - k1 * d.1 * (k2 * d.0);
      { assert k1 * d.0 * (k2 * d.1) == k1 * k2 * (d.0 * d.1);
        assert k1 * d.1 * (k2 * d.0) == k1 * k2 * (d.0 * d.1); }
      0;
    }
  }

  datatype Heading = North | East | South | West

  function OppositeHeading(h: Heading): Heading {
    match h
    case North => South
    case South => North
    case East => West
    case West => East
  }

  /**
   * The compass name of the move from `from` to `to`: east or west when it is mostly
   * horizontal, otherwise south (rows grow downwards) or north. No move at all is north.
   */
  function GetDirectionName(from: Pos, to: Pos): Heading {
    var dx, dy := to.0 - from.0, to.1 - from.1;
    if Abs(dx) > Abs(dy) then (if dx > 0 then East else West)
    else (if dy > 0 then South else North)
  }

  /** The move back is named by the opposite compass point. */
  lemma DirectionReversed(from: Pos, to: Pos)
    requires from != to
    ensures GetDirectionName(to, from) == OppositeHeading(GetDirectionName(from, to))
  {
  }

  /** The four unit moves get their own names. */
  lemma DirectionExamples(p: Pos)
    ensures GetDirectionName(p, (p.0 + 1, p.1)) == East
    ensures GetDirectionName(p, (p.0 - 1, p.1)) == West
    ensures GetDirectionName(p, (p.0, p.1 + 1)) == South
    ensures GetDirectionName(p, (p.0, p.1 - 1)) == North
  {
  }

  function Abs(n: int): nat {
    if n < 0 then -n else n
  }

  // ---------------------------------------------------------------------------------------
  // Sides

  datatype Side = Left | Right | Front | Behind | Unknown

  /** The name the side goes by in step records and sequence keys. */
  function SideName(s: Side): string {
    match s
    case Left => "left"
    case Right => "right"
    case Front => "front"
    case Behind => "behind"
    case Unknown => "unknown"
  }

  /** Left and right exchanged; the other sides unchanged. */
  function MirrorSide(s: Side): Side {
    match s
    case Left => Right
    case Right => Left
    case other => other
  }

  /** The cosine of 45 degrees as the point-based classifier writes it, in thousandths. */
  const PointFrontThreshold: nat := 707
  /** The cosine of 15 degrees as the segment-based classifier writes it, in thousandths. */
  const SegmentFrontThreshold: nat := 966

  /**
   * The normalised dot product of a and b is at least `thousandths` / 1000, written without
   * square roots: both sides are squared once the dot product is known to be non-negative.
   */
  predicate WithinCone(a: Pos, b: Pos, thousandths: nat) {
    var dot := Dot(a, b);
    dot >= 0 && 1000000 * (dot * dot) >= (thousandths * thousandths) * (Norm2(a) * Norm2(b))
  }

  /**
   * The side of direction `b` relative to direction of travel `a`: unknown for a zero
   * vector, front inside the cone, otherwise right or left by the sign of the cross
   * product, and behind when b points straight back.
   */
  function ClassifySide(a: Pos, b: Pos, thousandths: nat): Side {
    if Norm2(a) == 0 || Norm2(b) == 0 then Unknown
    else if WithinCone(a, b, thousandths) then Front
    else
      var cross := Cross(a, b);
      if cross > 0 then Right
      else if cross < 0 then Left
      else Behind
  }

  /** The point-based classifier: cone of 45 degrees around the move direction. */
  function CalculateRelativeSide(moveDir: Pos, landmarkDir: Pos): Side {
    ClassifySide(moveDir, landmarkDir, PointFrontThreshold)
  }

  /** The segment-based classifier: cone of 15 degrees around the segment, from its start. */
  function CalculateRelativeSideSegmentBased(segmentStart: Pos, segmentEnd: Pos, landmarkPos: Pos): Side {
    ClassifySide(Sub(segmentEnd, segmentStart), Sub(landmarkPos, segmentStart), SegmentFrontThreshold)
  }

  /** Short segments and turns use the point-based classifier, long straight segments the segment-based one. */
  function CalculateLandmarkSideHybrid(segmentStart: Pos, segmentEnd: Pos, landmarkPos: Pos,
                                       isLongSegment: bool, isTurnContext: bool): Side {
    if isTurnContext || !isLongSegment then
      CalculateRelativeSide(Sub(segmentEnd, segmentStart), Sub(landmarkPos, segmentStart))
    else
      CalculateRelativeSideSegmentBased(segmentStart, segmentEnd, landmarkPos)
  }

  /**
   * The square-free cone test is the normalised dot product test: for any non-negative
   * `la`, `lb` whose squares are the squared lengths, dot >= t * la * lb exactly when
   * WithinCone holds.
   */
  lemma WithinConeIsNormalisedDot(a: Pos, b: Pos, thousandths: nat, la: real, lb: real)
    requires la >= 0.0 && lb >= 0.0
    requires la * la == Norm2(a) as real && lb * lb == Norm2(b) as real
    ensures WithinCone(a, b, thousandths) <==>
      Dot(a, b) as real >= (thousandths as real / 1000.0) * la * lb
  {
    var dot := Dot(a, b) as real;
    var x := (thousandths as real / 1000.0) * la * lb;
    assert x >= 0.0;
    assert x * x == (thousandths * thousandths) as real * (Norm2(a) * Norm2(b)) as real / 1000000.0 by {
      assert x * x == (thousandths as real / 1000.0) * (thousandths as real / 1000.0) * (la * la) * (lb * lb);
    }
    if dot >= 0.0 {
      SquareMonotone(dot, x);
    }
  }

  /** For non-negative reals, comparing squares compares the numbers. */
  lemma SquareMonotone(u: real, v: real)
    requires u >= 0.0 && v >= 0.0
    ensures u >= v <==> u * u >= v * v
  {
    if u < v {
      NonNegativeProduct(u, v - u);
      PositiveProduct(v, v - u);
      assert u * (v - u) == u * v - u * u;
      assert v * (v - u) == v * v - u * v;
    } else {
      NonNegativeProduct(u, u - v);
      NonNegativeProduct(v, u - v);
      assert u * (u - v) == u * u - u * v;
      assert v * (u - v) == u * v - v * v;
    }
  }

  lemma NonNegativeProduct(x: real, y: real)
    requires x >= 0.0 && y >= 0.0
    ensures x * y >= 0.0
  {
  }

  lemma PositiveProduct(x: real, y: real)
    requires x > 0.0 && y > 0.0
    ensures x * y > 0.0
  {
  }

  /** The 15-degree cone lies inside the 45-degree cone: a segment-front landmark is point-front. */
  lemma SegmentFrontIsPointFront(a: Pos, b: Pos)
    ensures ClassifySide(a, b, SegmentFrontThreshold) == Front ==> ClassifySide(a, b, PointFrontThreshold) == Front
  {
    var p := Norm2(a) * Norm2(b);
    assert p >= 0 by {
      assert Norm2(a) >= 0 && Norm2(b) >= 0;
    }
    assert (707 * 707) * p <= (966 * 966) * p;
  }

  /** Away from the front cones the two classifiers agree: both decide by the cross product. */
  lemma ClassifiersAgreeOffFront(a: Pos, b: Pos)
    requires ClassifySide(a, b, PointFrontThreshold) != Front
    ensures ClassifySide(a, b, SegmentFrontThreshold) == ClassifySide(a, b, PointFrontThreshold)
  {
    SegmentFrontIsPointFront(a, b);
  }

  /** Reflecting both directions across the row axis exchanges left and right. */
  lemma MirrorExchangesSides(a: Pos, b: Pos, thousandths: nat)
    ensures ClassifySide((a.0, -a.1), (b.0, -b.1), thousandths) == MirrorSide(ClassifySide(a, b, thousandths))
  {
    assert Dot((a.0, -a.1), (b.0, -b.1)) == Dot(a, b);
    assert Cross((a.0, -a.1), (b.0, -b.1)) == -Cross(a, b);
  }

  /** Moving east, a landmark below is on the right, one above on the left, one ahead in front. */
  lemma SideExamples()
    ensures CalculateRelativeSide((1, 0), (0, 1)) == Right
    ensures CalculateRelativeSide((1, 0), (0, -1)) == Left
    ensures CalculateRelativeSide((1, 0), (1, 0)) == Front
    ensures CalculateRelativeSide((1, 0), (-1, 0)) == Behind
    ensures CalculateRelativeSide((0, 0), (1, 0)) == Unknown
  {
  }

  /** A right turn bends towards the right side: the next move lies on the right or in front. */
  lemma RightTurnIsOnTheRight(p1: Pos, p2: Pos, p3: Pos)
    requires DetectTurnDirection(p1, p2, p3) == TurnRight
    ensures CalculateRelativeSide(Sub(p2, p1), Sub(p3, p2)) in {Right, Front}
  {
    var a, b := Sub(p2, p1), Sub(p3, p2);
    ZeroNorm(a);
    ZeroNorm(b);
  }

  /** Only the zero vector has squared length zero. */
  lemma ZeroNorm(a: Pos)
    ensures Norm2(a) == 0 ==> a == (0, 0)
  {
    assert a.0 * a.0 >= 0 && a.1 * a.1 >= 0;
    if a.0 != 0 {
      assert a.0 * a.0 > 0;
    }
    if a.1 != 0 {
      assert a.1 * a.1 > 0;
    }
  }

  // ---------------------------------------------------------------------------------------
  // Sampling a segment

  /** Integer division truncating toward zero, as a float-to-int conversion does. */
  function TruncDiv(n: int, d: int): (q: int)
    requires d > 0
    ensures Abs(q) * d <= Abs(n) < (Abs(q) + 1) * d
    ensures n >= 0 ==> q >= 0
    ensures n <= 0 ==> q <= 0
  {
    if n >= 0 then n / d else -((-n) / d)
  }

  /** The Chebyshev length of the segment: the number of sampling steps along it. */
  function MoveLength(start: Pos, end: Pos): nat {
    var d := Sub(end, start);
    if Abs(d.0) >= Abs(d.1) then Abs(d.0) else Abs(d.1)
  }

  /**
   * The i-th of the L + 1 sample points of the segment: start + (i / L) * (end - start),
   * each coordinate truncated toward zero.
   */
  function SamplePoint(start: Pos, end: Pos, i: int, L: int): Pos
    requires L > 0
  {
    var d := Sub(end, start);
    (TruncDiv(start.0 * L + i * d.0, L), TruncDiv(start.1 * L + i * d.1, L))
  }

  /** The first sample is the segment's start and the last its end. */
  lemma SampleEndpoints(start: Pos, end: Pos, L: int)
    requires L > 0
    ensures SamplePoint(start, end, 0, L) == start
    ensures SamplePoint(start, end, L, L) == end
  {
    TruncExact(start.0, L);
    TruncExact(start.1, L);
    assert start.0 * L + L * (end.0 - start.0) == end.0 * L;
    assert start.1 * L + L * (end.1 - start.1) == end.1 * L;
    TruncExact(end.0, L);
    TruncExact(end.1, L);
  }

  /** A multiple of the divisor divides exactly. */
  lemma TruncExact(k: int, L: int)
    requires L > 0
    ensures TruncDiv(k * L, L) == k
  {
    if k >= 0 {
      DivUnique(k * L, L, k, 0);
    } else {
      assert -(k * L) == (-k) * L;
      DivUnique((-k) * L, L, -k, 0);
    }
  }

  /** The quotient is determined by any decomposition with a remainder in [0, L). */
  lemma DivUnique(n: int, L: int, q: int, r: int)
    requires L > 0 && n == q * L + r && 0 <= r < L
    ensures n / L == q
  {
    var q', r' := n / L, n % L;
    assert (q - q') * L == r' - r by {
      assert q * L - q' * L == (q - q') * L;
    }
    MulSign(q - q', L);
  }

  /** The sign of a multiple of a positive number, and its size away from zero. */
  lemma MulSign(x: int, L: int)
    requires L > 0
    ensures x >= 1 ==> x * L >= L
    ensures x <= -1 ==> x * L <= -L
  {
    if x >= 1 {
      assert x * L == (x - 1) * L + L;
      assert (x - 1) * L >= 0;
    }
    if x <= -1 {
      assert x * L == (x + 1) * L - L;
      assert (x + 1) * L <= 0;
    }
  }

  /** Every sample lies in the bounding box of the segment. */
  lemma SampleInBox(start: Pos, end: Pos, i: int, L: int)
    requires 0 < L && 0 <= i <= L
    ensures Min(start.0, end.0) <= SamplePoint(start, end, i, L).0 <= Max(start.0, end.0)
    ensures Min(start.1, end.1) <= SamplePoint(start, end, i, L).1 <= Max(start.1, end.1)
  {
    SampleCoordinateInRange(start.0, end.0, i, L);
    SampleCoordinateInRange(start.1, end.1, i, L);
  }

  lemma SampleCoordinateInRange(s: int, e: int, i: int, L: int)
    requires 0 < L && 0 <= i <= L
    ensures Min(s, e) <= TruncDiv(s * L + i * (e - s), L) <= Max(s, e)
  {
    var n := s * L + i * (e - s);
    var lo, hi := Min(s, e), Max(s, e);
    assert lo * L <= n <= hi * L by {
      if s <= e {
        assert 0 <= i * (e - s) <= L * (e - s);
      } else {
        assert L * (e - s) <= i * (e - s) <= 0;
      }
    }
    TruncBetween(n, L, lo);
    TruncBetween(n, L, hi);
  }

  /** Truncated division is monotone: comparing n with a multiple k * L compares the quotient with k. */
  lemma TruncBetween(n: int, L: int, k: int)
    requires L > 0
    ensures n >= k * L ==> TruncDiv(n, L) >= k
    ensures n <= k * L ==> TruncDiv(n, L) <= k
  {
    TruncExact(k, L);
    if n >= k * L {
      TruncMonotone(k * L, n, L);
    }
    if n <= k * L {
      TruncMonotone(n, k * L, L);
    }
  }

  lemma TruncMonotone(m: int, n: int, L: int)
    requires L > 0 && m <= n
    ensures TruncDiv(m, L) <= TruncDiv(n, L)
  {
    if m >= 0 {
      DivMonotone(m, n, L);
    } else if n <= 0 {
      DivMonotone(-n, -m, L);
    }
  }

  lemma DivMonotone(m: int, n: int, L: int)
    requires L > 0 && 0 <= m <= n
    ensures m / L <= n / L
  {
    var qm, qn := m / L, n / L;
    assert (qm - qn) * L < L by {
      assert (qm - qn) * L == qm * L - qn * L;
      assert qm * L == m - m % L && qn * L == n - n % L;
    }
    MulSign(qm - qn, L);
  }

  function Min(a: int, b: int): int {
    if a <= b then a else b
  }

  function Max(a: int, b: int): int {
    if a >= b then a else b
  }
}
