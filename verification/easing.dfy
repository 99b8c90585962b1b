/**
 The quadratic ease-in-out curve that reparameterises the progress of a flip
 transition (`easeInOutQuad` in the GIF generator).  It is modelled over exact
 reals: the curve is `2t^2` below one half and `-1 + (4 - 2t)t` from one half on.
 */
module Easing {

  /** Lower branch of the curve, used for t < 1/2. */
  function EaseIn(t: real): real {
    2.0 * t * t
  }

  /** Upper branch of the curve, used for t >= 1/2. */
  function EaseOut(t: real): real {
    -1.0 + (4.0 - 2.0 * t) * t
  }

  /** The upper branch is the lower one reflected through the point (1/2, 1/2). */
  lemma EaseOutIsReflectedEaseIn(t: real)
    ensures EaseOut(t) == 1.0 - EaseIn(1.0 - t)
  {
  }

  /** The eased progress.  On the unit interval it stays in the unit interval,
      fixes both ends, and sits below, at or above one half exactly when its
      argument does. */
  function Ease(t: real): (r: real)
    ensures 0.0 <= t <= 1.0 ==> 0.0 <= r <= 1.0
    ensures t == 0.0 ==> r == 0.0
    ensures t == 1.0 ==> r == 1.0
    ensures 0.0 <= t <= 1.0 ==> (r < 0.5 <==> t < 0.5)
    ensures 0.0 <= t <= 1.0 ==> (r == 0.5 <==> t == 0.5)
  {
    if t < 0.5 then
      EaseInBelowHalf(t);
      EaseIn(t)
    else
      EaseInBelowHalf(1.0 - t);
      EaseOutIsReflectedEaseIn(t);
      EaseOut(t)
  }

  /** On [0, 1/2] the lower branch lies in [0, 1/2], reaching 1/2 only at 1/2. */
  lemma EaseInBelowHalf(t: real)
    ensures 0.0 <= t < 0.5 ==> 0.0 <= EaseIn(t) < 0.5
    ensures t == 0.5 ==> EaseIn(t) == 0.5
  {
    if 0.0 <= t < 0.5 {
      assert t * t <= 0.5 * t;
      assert 0.5 * t < 0.25;
    }
  }

  /** Both branches give 1/2 at t = 1/2, so the curve is continuous where it
      switches branch. */
  lemma BranchesMeetAtHalf()
    ensures EaseIn(0.5) == EaseOut(0.5) == 0.5
  {
  }

  /** The lower branch does not decrease on the non-negative reals. */
  lemma EaseInMonotone(a: real, b: real)
    requires 0.0 <= a <= b
    ensures EaseIn(a) <= EaseIn(b)
  {
  }

  /** The curve does not decrease on the unit interval. */
  lemma EaseMonotone(a: real, b: real)
    requires 0.0 <= a <= b <= 1.0
    ensures Ease(a) <= Ease(b)
  {
    if b < 0.5 {
      EaseInMonotone(a, b);
    } else if 0.5 <= a {
      EaseInMonotone(1.0 - b, 1.0 - a);
      EaseOutIsReflectedEaseIn(a);
      EaseOutIsReflectedEaseIn(b);
    } else {
      assert Ease(a) < 0.5 <= Ease(b);
    }
  }

  /** Easing is symmetric: the second half of a transition replays the first
      half backwards, mirrored about one half. */
  lemma EaseSymmetric(t: real)
    requires 0.0 <= t <= 1.0
    ensures Ease(1.0 - t) == 1.0 - Ease(t)
  {
  }
}
