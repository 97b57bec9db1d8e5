/**
 * The loop wheel of the game: a ring of `count` slots that a marker sweeps
 * one slot at a time, either forward or backward, wrapping at both ends.
 * The functions here are the pure part of GameManager.LoopThroughWheel and
 * GameManager.SetPieceColor; the class in game_manager.dfy runs them in place.
 */
module Wheel {

  /** A Unity colour: four float channels, modelled as reals. */
  datatype Color = Color(r: real, g: real, b: real, a: real)

  /**
   * The slot the marker moves to from `index` on a ring of `count` slots.
   * Forward, the last slot wraps to 0; backward, slot 0 wraps to the last
   * slot. The direction itself is never changed by a step.
   */
  function Step(index: int, count: int, forward: bool): (next: int)
    ensures 0 <= index < count ==> 0 <= next < count
    ensures 0 <= index < count && count > 1 ==> next != index
  {
    if forward then
      if index < count - 1 then index + 1 else 0
    else
      if index > 0 then index - 1 else count - 1
  }

  /** A step backward undoes a step forward and vice versa. */
  lemma StepUndo(index: int, count: int, forward: bool)
    requires 0 <= index < count
    ensures Step(Step(index, count, forward), count, !forward) == index
  {
  }

  /** Where the marker is after `k` consecutive steps in one direction. */
  function Steps(index: int, count: int, forward: bool, k: nat): int
  {
    if k == 0 then index else Step(Steps(index, count, forward, k - 1), count, forward)
  }

  /** Stepping once and then `k` times is stepping `k + 1` times. */
  lemma {:induction false} StepsShift(index: int, count: int, forward: bool, k: nat)
    ensures Steps(Step(index, count, forward), count, forward, k) == Steps(index, count, forward, k + 1)
  {
    if k > 0 {
      StepsShift(index, count, forward, k - 1);
    }
  }

  /**
   * Within one sweep (at most `count` steps), the position is the start
   * shifted by `k`, wrapped once around the ring.
   */
  lemma {:induction false} SweepPosition(index: int, count: int, forward: bool, k: nat)
    requires 0 <= index < count && k <= count
    ensures forward ==>
      Steps(index, count, forward, k) == if index + k < count then index + k else index + k - count
    ensures !forward ==>
      Steps(index, count, forward, k) == if k <= index then index - k else index - k + count
  {
    if k > 0 {
      SweepPosition(index, count, forward, k - 1);
    }
  }

  /** Some position of the sweep of `count` steps starting at `index` is `slot`. */
  ghost predicate ReachedInSweep(index: int, count: int, forward: bool, slot: int)
  {
    exists j :: 0 <= j < count && Steps(index, count, forward, j) == slot
  }

  /**
   * A full sweep of `count` steps in one direction visits every slot exactly
   * once and comes back to where it started.
   */
  lemma {:induction false} FullSweep(index: int, count: int, forward: bool)
    requires 0 <= index < count
    ensures Steps(index, count, forward, count) == index
    ensures forall j, k :: 0 <= j < k < count ==>
      Steps(index, count, forward, j) != Steps(index, count, forward, k)
    ensures forall slot :: 0 <= slot < count ==> ReachedInSweep(index, count, forward, slot)
  {
    SweepPosition(index, count, forward, count);
    forall j, k | 0 <= j < k < count
      ensures Steps(index, count, forward, j) != Steps(index, count, forward, k)
    {
      SweepPosition(index, count, forward, j);
      SweepPosition(index, count, forward, k);
    }
    forall slot | 0 <= slot < count
      ensures ReachedInSweep(index, count, forward, slot)
    {
      var j := if forward then (if slot >= index then slot - index else slot - index + count)
               else (if slot <= index then index - slot else index - slot + count);
      SweepPosition(index, count, forward, j);
    }
  }

  /**
   * The colours of a ring of `count` slots in which slot `k` has colour `on`
   * and every other slot colour `off` (no slot is `on` when `k` is outside
   * the ring).
   */
  function Highlight(count: nat, k: int, on: Color, off: Color): (colors: seq<Color>)
    ensures |colors| == count
    ensures forall i :: 0 <= i < count ==> colors[i] == (if i == k then on else off)
  {
    if count == 0 then [] else Highlight(count - 1, k, on, off) + [if count - 1 == k then on else off]
  }

  /** With two distinct colours, exactly one slot of the ring is highlighted. */
  lemma {:induction false} HighlightExactlyOne(count: nat, k: int, on: Color, off: Color)
    requires on != off
    ensures multiset(Highlight(count, k, on, off))[on] == (if 0 <= k < count then 1 else 0)
    ensures multiset(Highlight(count, k, on, off))[off] == (if 0 <= k < count then count - 1 else count)
  {
    if count > 0 {
      HighlightExactlyOne(count - 1, k, on, off);
    }
  }
}
