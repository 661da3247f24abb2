/** The bounds of the horizontal track and the progress figure derived from them.
    Positions are pixels, modelled as `real` (no floating-point rounding). */
module Bounds {

  function Abs(x: real): real {
    if x < 0.0 then -x else x
  }

  function Max(a: real, b: real): real {
    if a < b then b else a
  }

  function Min(a: real, b: real): real {
    if a < b then a else b
  }

  /** `Math.max(lo, Math.min(hi, v))`: the lower bound wins when the range is empty. */
  function Clamp(v: real, lo: real, hi: real): (r: real)
    ensures lo <= r
    ensures lo <= hi ==> r <= hi
    ensures lo <= v <= hi ==> r == v
    ensures hi < lo ==> r == lo
  {
    Max(lo, Min(hi, v))
  }

  /** Within a non-empty range the clamped value is the point of the range nearest to `v`. */
  lemma ClampIsNearest(v: real, lo: real, hi: real, y: real)
    requires lo <= hi && lo <= y <= hi
    ensures Abs(Clamp(v, lo, hi) - v) <= Abs(y - v)
  {
  }

  /** Clamping twice is clamping once. */
  lemma ClampIdempotent(v: real, lo: real, hi: real)
    ensures Clamp(Clamp(v, lo, hi), lo, hi) == Clamp(v, lo, hi)
  {
  }

  /** `scrollWidth - clientWidth`, deliberately not floored at 0: the range
      `[0, MaxScroll]` is non-empty exactly when the content is at least as wide as the viewport. */
  function MaxScroll(scrollWidth: real, clientWidth: real): (m: real)
    ensures 0.0 <= m <==> clientWidth <= scrollWidth
  {
    scrollWidth - clientWidth
  }

  /** The width of the progress bar, in percent, for a track at `scrollLeft` whose maximum is `max`. */
  function Progress(scrollLeft: real, max: real): (pct: real)
    ensures max <= 0.0 ==> pct == 0.0
    ensures max > 0.0 && 0.0 <= scrollLeft <= max ==> 0.0 <= pct <= 100.0
    ensures max > 0.0 ==> (pct == 0.0 <==> scrollLeft == 0.0)
    ensures max > 0.0 ==> (pct == 100.0 <==> scrollLeft == max)
  {
    if max > 0.0 then (scrollLeft / max) * 100.0 else 0.0
  }

  /** Scrolling further right never shrinks the progress bar. */
  lemma ProgressMonotonic(s1: real, s2: real, max: real)
    requires s1 <= s2
    ensures Progress(s1, max) <= Progress(s2, max)
  {
    if max > 0.0 {
      assert s1 / max <= s2 / max;
    }
  }
}
