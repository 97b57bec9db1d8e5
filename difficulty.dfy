/**
 * The arithmetic of GameManager: the point multiplier worked out when the
 * game starts, the shrinking of the loop interval on a hit, and the points
 * awarded on a hit. The C# floats are modelled as reals (no rounding).
 */
module Difficulty {

  /**
   * The point multiplier of StartGame: the sum of the two slider values
   * over the sum of their maxima.
   */
  function PointMultiplier(loopDelay: real, loopDelayMax: real, speed: real, speedMax: real): (m: real)
    requires loopDelayMax + speedMax != 0.0
    ensures m * (loopDelayMax + speedMax) == loopDelay + speed
    ensures 0.0 <= loopDelay <= loopDelayMax && 0.0 <= speed <= speedMax ==> 0.0 <= m <= 1.0
    ensures loopDelay + speed == loopDelayMax + speedMax <==> m == 1.0
  {
    var difficultyCurrentValue := loopDelay + speed;
    var difficultyMaxValue := loopDelayMax + speedMax;
    var m := difficultyCurrentValue / difficultyMaxValue;
    QuotientInUnitRange(difficultyCurrentValue, difficultyMaxValue);
    m
  }

  /** The sign of a product of two non-negative reals. */
  lemma ProductSign(a: real, b: real)
    ensures a >= 0.0 && b >= 0.0 ==> a * b >= 0.0
    ensures a > 0.0 && b > 0.0 ==> a * b > 0.0
  {
  }

  /** Multiplication distributes over a difference. */
  lemma ProductOfDifference(a: real, b: real, c: real)
    ensures (a - b) * c == a * c - b * c
    ensures c * (a - b) == c * a - c * b
  {
  }

  /** Dividing by a positive number keeps the order. */
  lemma QuotientMonotone(a: real, b: real, whole: real)
    requires whole > 0.0 && a <= b
    ensures a / whole <= b / whole
  {
  }

  /** A quotient of `part` by a positive `whole` it does not exceed lies in [0, 1]. */
  lemma QuotientInUnitRange(part: real, whole: real)
    requires whole != 0.0
    ensures part / whole == 1.0 <==> part == whole
    ensures whole > 0.0 && 0.0 <= part <= whole ==> 0.0 <= part / whole <= 1.0
  {
  }

  /** Moving either slider up (maxima fixed) never lowers the multiplier. */
  lemma MultiplierMonotone(loopDelay: real, loopDelay': real, loopDelayMax: real,
                           speed: real, speed': real, speedMax: real)
    requires loopDelayMax + speedMax > 0.0
    requires loopDelay <= loopDelay' && speed <= speed'
    ensures PointMultiplier(loopDelay, loopDelayMax, speed, speedMax)
            <= PointMultiplier(loopDelay', loopDelayMax, speed', speedMax)
  {
    QuotientMonotone(loopDelay + speed, loopDelay' + speed', loopDelayMax + speedMax);
  }

  /** Both sliders at half of a maximum of 1 give a multiplier of one half. */
  lemma HalfSlidersHalfMultiplier()
    ensures PointMultiplier(0.5, 1.0, 0.5, 1.0) == 0.5
  {
  }

  /**
   * The interval after a hit. Above 0.1 it loses the fraction `decay` of
   * itself, as the C# statement `x -= x *= decay` does (the left operand is
   * read before the inner assignment); at or below 0.1 it is kept.
   */
  function ShrinkCooldown(cooldown: real, decay: real): (next: real)
    ensures cooldown <= 0.1 ==> next == cooldown
    ensures cooldown > 0.1 ==> next == cooldown * (1.0 - decay)
  {
    if cooldown > 0.1 then
      var lhs := cooldown;
      var product := cooldown * decay;
      lhs - product
    else
      cooldown
  }

  /** With a decay in [0, 1), one hit never lengthens a positive interval nor makes it non-positive. */
  lemma ShrinkStep(cooldown: real, decay: real)
    requires cooldown > 0.0 && 0.0 <= decay < 1.0
    ensures 0.0 < ShrinkCooldown(cooldown, decay) <= cooldown
  {
    ProductSign(cooldown, decay);
    ProductSign(cooldown, 1.0 - decay);
  }

  /** The interval after `k` hits in a row. */
  function ShrinkRepeated(cooldown: real, decay: real, k: nat): real
  {
    if k == 0 then cooldown else ShrinkCooldown(ShrinkRepeated(cooldown, decay, k - 1), decay)
  }

  /**
   * Over any number of hits the interval never grows, stays positive, and
   * never falls below the smaller of its start and 0.1 * (1 - decay): the
   * 0.1 test only guards the shrink, so one shrink can take it under 0.1,
   * after which it stays where it is.
   */
  lemma {:induction false} ShrinkBounds(cooldown: real, decay: real, k: nat)
    requires cooldown > 0.0 && 0.0 <= decay < 1.0
    ensures 0.0 < ShrinkRepeated(cooldown, decay, k) <= cooldown
    ensures ShrinkRepeated(cooldown, decay, k) >= if cooldown < 0.1 * (1.0 - decay) then cooldown else 0.1 * (1.0 - decay)
    ensures ShrinkRepeated(cooldown, decay, k) <= 0.1 ==>
      ShrinkRepeated(cooldown, decay, k + 1) == ShrinkRepeated(cooldown, decay, k)
  {
    if k > 0 {
      ShrinkBounds(cooldown, decay, k - 1);
      var prev := ShrinkRepeated(cooldown, decay, k - 1);
      ShrinkStep(prev, decay);
      if prev > 0.1 {
        ProductSign(prev - 0.1, 1.0 - decay);
        ProductOfDifference(prev, 0.1, 1.0 - decay);
      }
    }
  }

  /** An interval of 0.2 with a decay of 0.9 is 0.02 after one hit, below 0.1. */
  lemma ShrinkCanPassFloor()
    ensures ShrinkCooldown(0.2, 0.9) < 0.1
  {
  }

  /** The points after a hit: the base award plus the base award times the multiplier. */
  function Award(points: real, pointsToAdd: real, multiplier: real): (total: real)
    ensures total - points == pointsToAdd * (1.0 + multiplier)
    ensures pointsToAdd >= 0.0 && multiplier >= -1.0 ==> total >= points
  {
    points + pointsToAdd + pointsToAdd * multiplier
  }

  /** The points after `k` hits at one multiplier. */
  function AwardRepeated(points: real, pointsToAdd: real, multiplier: real, k: nat): real
  {
    if k == 0 then points else Award(AwardRepeated(points, pointsToAdd, multiplier, k - 1), pointsToAdd, multiplier)
  }

  /** `k` hits at one multiplier add exactly `k` times the award of one hit. */
  lemma {:induction false} AwardRepeatedTotal(points: real, pointsToAdd: real, multiplier: real, k: nat)
    ensures AwardRepeated(points, pointsToAdd, multiplier, k)
            == points + (k as real) * (pointsToAdd * (1.0 + multiplier))
  {
    if k > 0 {
      AwardRepeatedTotal(points, pointsToAdd, multiplier, k - 1);
      var one := pointsToAdd * (1.0 + multiplier);
      assert (k as real) * one == ((k - 1) as real) * one + one;
    }
  }
}
