/** One frame of the easing animation, as a function of the animated position
    `current` and the requested position `target`. */
module Easing {
  import opened Bounds

  /** The smoothing factor applied to the remaining gap on each frame. */
  const EASE: real := 0.22
  /** A step of at most this many pixels snaps straight to the target. */
  const SNAP: real := 0.5

  function Delta(current: real, target: real): real {
    (target - current) * EASE
  }

  /** The frame's step is small enough to snap to the target and stop. */
  predicate Snaps(current: real, target: real) {
    Abs(Delta(current, target)) <= SNAP
  }

  /** `currentLeft` after one frame: either the snap to `target`, or a step of
      22% of the gap that shrinks the gap to 78% of what it was, without overshooting. */
  function NextLeft(current: real, target: real): (r: real)
    ensures Snaps(current, target) ==> r == target
    ensures !Snaps(current, target) ==> Abs(target - r) == 0.78 * Abs(target - current)
    ensures !Snaps(current, target) ==> Abs(target - r) < Abs(target - current) - SNAP
    ensures current <= target ==> current <= r <= target
    ensures target <= current ==> target <= r <= current
  {
    if Snaps(current, target) then target else current + Delta(current, target)
  }

  /** The number of frames, the final snapping frame included, the animation runs
      from `current` until it stops at `target`. Each frame that does not snap
      shrinks the gap by more than half a pixel, so twice the gap, rounded down, decreases. */
  function FramesToSettle(current: real, target: real): (n: nat)
    ensures n >= 1
    ensures n == 1 <==> Snaps(current, target)
    decreases (2.0 * Abs(target - current)).Floor
  {
    if Snaps(current, target) then 1
    else 1 + FramesToSettle(NextLeft(current, target), target)
  }

  /** The animation stops within `2 * gap + 1` frames of a request. */
  lemma {:induction false} FramesToSettleBound(current: real, target: real)
    ensures FramesToSettle(current, target) as real <= 2.0 * Abs(target - current) + 1.0
    decreases FramesToSettle(current, target)
  {
    if !Snaps(current, target) {
      var next := NextLeft(current, target);
      FramesToSettleBound(next, target);
    }
  }

  /** The remaining gap never grows from one frame to the next (it stays the
      same only when it is already zero). */
  lemma GapNonIncreasing(current: real, target: real)
    ensures Abs(target - NextLeft(current, target)) <= Abs(target - current)
    ensures current != target ==> Abs(target - NextLeft(current, target)) < Abs(target - current) || NextLeft(current, target) == target
  {
  }
}
