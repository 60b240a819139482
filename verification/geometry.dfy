/** The timing and slew geometry the resolver checks before each capture:
    isInTimeStamp and isConflict of NaiveResolver.cpp. */
module Geometry {
  import opened SimData

  /** Inclusive window membership. */
  predicate InWindow(turn: int, ts: TimeStamp) {
    ts.minTime <= turn <= ts.maxTime
  }

  /** The scan of isInTimeStamp from window i on: true at the first window
      holding the turn. */
  function InTimeStampFrom(turn: int, windows: seq<TimeStamp>, i: nat): (r: bool)
    requires i <= |windows|
    ensures r <==> exists w :: i <= w < |windows| && InWindow(turn, windows[w])
    decreases |windows| - i
  {
    if i == |windows| then false
    else if turn >= windows[i].minTime && turn <= windows[i].maxTime then true
    else InTimeStampFrom(turn, windows, i + 1)
  }

  /** isInTimeStamp: may a picture of coll be taken at this turn? */
  function InTimeStamp(turn: int, coll: Collection): bool {
    InTimeStampFrom(turn, coll.windows, 0)
  }

  /** Squared Euclidean distance in arcsecond space. */
  function SqDist(a: Position, b: Position): int {
    (a.la - b.la) * (a.la - b.la) + (a.lo - b.lo) * (a.lo - b.lo)
  }

  /** The image's position relative to the satellite's current pointing. */
  function RelativeOffset(sat: Satellite, im: Image): Position {
    Position(sat.la - im.la, sat.lo - im.lo)
  }

  /** The previous shot's relative offset, (0,0) before any shot. */
  function PreviousOffset(sat: Satellite): Position {
    match sat.lastOffset
    case None => Position(0, 0)
    case Some(p) => p
  }

  /** How far the camera may slew by this turn: speedRot times the turns
      elapsed since the last shot. */
  function SlewBudget(sat: Satellite, turn: int): int {
    sat.speedRot * (turn - sat.lastShotTurn)
  }

  /** isConflict, in exact integers: the distance between the new and the
      previous relative offset exceeds the budget. sqrt(d2) > k holds exactly
      when k < 0 or d2 > k*k. */
  predicate IsConflict(sat: Satellite, im: Image, turn: int): (r: bool)
    ensures r ==> SlewBudget(sat, turn) < 0 || RelativeOffset(sat, im) != PreviousOffset(sat)
  {
    var k := SlewBudget(sat, turn);
    k < 0 || SqDist(RelativeOffset(sat, im), PreviousOffset(sat)) > k * k
  }

  lemma SquareMonotone(d: real, k: real)
    requires d >= 0.0 && k >= 0.0
    ensures d > k <==> d * d > k * k
  {
    if d > k {
      SquareGrows(k, d);
    } else {
      SquareNoSmaller(d, k);
    }
  }

  lemma SquareGrows(a: real, b: real)
    requires 0.0 <= a < b
    ensures a * a < b * b
  {
    assert b * b - a * a == (b + a) * (b - a);
    RealMulPositive(b + a, b - a);
  }

  lemma SquareNoSmaller(a: real, b: real)
    requires 0.0 <= a <= b
    ensures a * a <= b * b
  {
    assert b * b - a * a == (b + a) * (b - a);
    RealMulNonNegative(b + a, b - a);
  }

  lemma RealMulPositive(a: real, b: real)
    requires a > 0.0 && b > 0.0
    ensures a * b > 0.0
  {
  }

  lemma RealMulNonNegative(a: real, b: real)
    requires a >= 0.0 && b >= 0.0
    ensures a * b >= 0.0
  {
  }

  lemma MulNonNegative(a: int, b: int)
    requires a >= 0 && b >= 0
    ensures a * b >= 0
  {
  }

  /** The integer test agrees with the source's floating comparison of the
      Euclidean distance d (the square root of the squared distance) against
      the slew budget: a conflict exactly when d is strictly larger, so a
      distance equal to the budget is allowed. */
  lemma ConflictIsEuclidean(sat: Satellite, im: Image, turn: int, d: real)
    requires d >= 0.0
    requires d * d == SqDist(RelativeOffset(sat, im), PreviousOffset(sat)) as real
    ensures IsConflict(sat, im, turn) <==> d > SlewBudget(sat, turn) as real
  {
    var k := SlewBudget(sat, turn);
    if k >= 0 {
      SquareMonotone(d, k as real);
      assert (k * k) as real == (k as real) * (k as real);
    }
  }

  /** Waiting never creates a conflict: with a non-negative rotation speed,
      an image the camera can slew to at turn t1 it can still slew to at any
      later turn. */
  lemma ConflictLaterTurn(sat: Satellite, im: Image, t1: int, t2: int)
    requires sat.speedRot >= 0 && sat.lastShotTurn <= t1 <= t2
    ensures IsConflict(sat, im, t2) ==> IsConflict(sat, im, t1)
  {
    var k1 := SlewBudget(sat, t1);
    var k2 := SlewBudget(sat, t2);
    MulNonNegative(sat.speedRot, t1 - sat.lastShotTurn);
    assert k2 - k1 == sat.speedRot * (t2 - t1);
    MulNonNegative(sat.speedRot, t2 - t1);
    assert k2 * k2 - k1 * k1 == (k2 + k1) * (k2 - k1);
    MulNonNegative(k2 + k1, k2 - k1);
  }
}
