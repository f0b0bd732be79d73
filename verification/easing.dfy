/** The per-frame easing value: the user's easing factor scaled by the
    frame time in units of a 60 Hz frame, clamped to [0, 1]. */
module Easing {
  import opened RealArith

  function Min(a: real, b: real): real {
    if a <= b then a else b
  }

  function Max(a: real, b: real): real {
    if a >= b then a else b
  }

  /** Clamps x to [lo, hi] the way the rendering library does it, as
      max(lo, min(hi, x)); an empty range (lo > hi) yields lo. */
  function Clamp(x: real, lo: real, hi: real): (r: real)
    ensures r >= lo
    ensures lo <= hi ==> r <= hi
    ensures lo <= x <= hi ==> r == x
    ensures x < lo ==> r == lo
    ensures lo <= hi && x > hi ==> r == hi
    ensures lo > hi ==> r == lo
  {
    Max(lo, Min(hi, x))
  }

  /** The frame factor handed to the shaders: in [0, 1] always, and equal
      to easingFactor * dt * 60 whenever that product already lies there. */
  function Ease(easingFactor: real, dt: real): (e: real)
    ensures 0.0 <= e <= 1.0
    ensures 0.0 <= easingFactor * (dt * 60.0) <= 1.0 ==> e == easingFactor * (dt * 60.0)
    ensures easingFactor * (dt * 60.0) >= 1.0 ==> e == 1.0
    ensures easingFactor * (dt * 60.0) <= 0.0 ==> e == 0.0
  {
    Clamp(easingFactor * (dt * 60.0), 0.0, 1.0)
  }

  /** Clamping twice is clamping once. */
  lemma ClampIdempotent(x: real, lo: real, hi: real)
    ensures Clamp(Clamp(x, lo, hi), lo, hi) == Clamp(x, lo, hi)
  {
  }

  /** Clamping preserves order. */
  lemma ClampMonotone(x: real, y: real, lo: real, hi: real)
    requires x <= y
    ensures Clamp(x, lo, hi) <= Clamp(y, lo, hi)
  {
  }

  /** A long frame saturates the easing value instead of overshooting:
      easing factor 1 over a ten-second frame gives exactly 1. */
  lemma LongFrameSaturates()
    ensures Ease(1.0, 10.0) == 1.0
  {
  }

  /** With a non-negative easing factor, a longer frame never eases less. */
  lemma EaseMonotoneInFrameTime(easingFactor: real, dt1: real, dt2: real)
    requires easingFactor >= 0.0
    requires dt1 <= dt2
    ensures Ease(easingFactor, dt1) <= Ease(easingFactor, dt2)
  {
    assert easingFactor * (dt2 * 60.0) - easingFactor * (dt1 * 60.0)
        == easingFactor * ((dt2 - dt1) * 60.0);
    MulNonNeg(easingFactor, (dt2 - dt1) * 60.0);
    ClampMonotone(easingFactor * (dt1 * 60.0), easingFactor * (dt2 * 60.0), 0.0, 1.0);
  }

  /** At exactly 60 frames per second the easing value is the easing factor
      itself, for every factor in [0, 1]; the controls offer 0.01 to 1. */
  lemma SixtyHertzGivesFactor(easingFactor: real)
    requires 0.0 <= easingFactor <= 1.0
    ensures Ease(easingFactor, 1.0 / 60.0) == easingFactor
  {
    assert (1.0 / 60.0) * 60.0 == 1.0;
  }
}
