/** The arithmetic of one animation frame: normalised progress, the
    ease-out curve and the interpolation between two angles, as the engine's
    `Mathf.Clamp01`, `Mathf.Pow(x, 2)` and `Mathf.Lerp` compute them over
    the reals. */
module Animation {

  /** Real multiplication under a name. It exists for the proofs only: the
      solver handles raw nonlinear products unreliably, so the few facts the
      animation needs about products are stated once as lemmas about
      `Scale` and applied by name. */
  function Scale(d: real, u: real): real {
    d * u
  }

  lemma ScaleNonNegative(x: real, y: real)
    requires x >= 0.0 && y >= 0.0
    ensures Scale(x, y) >= 0.0
  {
  }

  lemma ScaleMonotone(x: real, u: real, v: real)
    requires x >= 0.0 && u <= v
    ensures Scale(x, u) <= Scale(x, v)
  {
    ScaleNonNegative(x, v - u);
    assert x * v - x * u == x * (v - u);
  }

  /** Scaling by a factor in [0, 1] keeps a value between 0 and itself. */
  lemma ScaleBetween(d: real, u: real)
    requires 0.0 <= u <= 1.0
    ensures d >= 0.0 ==> 0.0 <= Scale(d, u) <= d
    ensures d <= 0.0 ==> d <= Scale(d, u) <= 0.0
    ensures u == 0.0 ==> Scale(d, u) == 0.0
    ensures u == 1.0 ==> Scale(d, u) == d
  {
    if d >= 0.0 {
      ScaleNonNegative(d, u);
      ScaleMonotone(d, u, 1.0);
    } else {
      ScaleNonNegative(-d, u);
      ScaleMonotone(-d, u, 1.0);
      assert Scale(-d, u) == -Scale(d, u);
    }
  }

  function Clamp01(x: real): (r: real)
    ensures 0.0 <= r <= 1.0
    ensures 0.0 <= x <= 1.0 ==> r == x
    ensures x < 0.0 ==> r == 0.0
    ensures x > 1.0 ==> r == 1.0
  {
    if x < 0.0 then 0.0 else if x > 1.0 then 1.0 else x
  }

  /** Quadratic ease-out, `1 - (1 - t)^2`: fast at the start, slowing to a
      stop. */
  function Ease(t: real): real {
    1.0 - Scale(1.0 - t, 1.0 - t)
  }

  /** The curve maps the unit interval onto itself, fixing both ends. */
  lemma EaseInUnitInterval(t: real)
    requires 0.0 <= t <= 1.0
    ensures 0.0 <= Ease(t) <= 1.0
    ensures t == 0.0 ==> Ease(t) == 0.0
    ensures t == 1.0 ==> Ease(t) == 1.0
  {
    ScaleBetween(1.0 - t, 1.0 - t);
  }

  /** Later progress never maps to an earlier point of the curve, so the
      wheel never turns back during a spin. */
  lemma EaseMonotone(a: real, b: real)
    requires 0.0 <= a <= b <= 1.0
    ensures Ease(a) <= Ease(b)
  {
    assert Ease(b) - Ease(a) == Scale(b - a, 2.0 - a - b);
    ScaleNonNegative(b - a, 2.0 - a - b);
  }

  /** Interpolation for a parameter already in [0, 1]. */
  function Interpolate(a: real, b: real, u: real): (r: real)
    requires 0.0 <= u <= 1.0
    ensures a <= b ==> a <= r <= b
    ensures b <= a ==> b <= r <= a
    ensures u == 0.0 ==> r == a
    ensures u == 1.0 ==> r == b
  {
    ScaleBetween(b - a, u);
    a + Scale(b - a, u)
  }

  /** `Mathf.Lerp`: the parameter is clamped to [0, 1] first. */
  function Lerp(a: real, b: real, t: real): (r: real)
    ensures a <= b ==> a <= r <= b
    ensures b <= a ==> b <= r <= a
    ensures t <= 0.0 ==> r == a
    ensures t >= 1.0 ==> r == b
  {
    Interpolate(a, b, Clamp01(t))
  }

  lemma LerpMonotone(a: real, b: real, u1: real, u2: real)
    requires a <= b
    requires 0.0 <= u1 <= u2 <= 1.0
    ensures Lerp(a, b, u1) <= Lerp(a, b, u2)
  {
    assert Clamp01(u1) == u1 && Clamp01(u2) == u2;
    ScaleMonotone(b - a, u1, u2);
  }

  lemma DivMonotone(x: real, y: real, d: real)
    requires d > 0.0 && x <= y
    ensures x / d <= y / d
  {
    assert y / d - x / d == (y - x) / d;
  }

  /** Eased progress of a spin of length `duration` after `elapsed`. */
  function Progress(elapsed: real, duration: real): (p: real)
    requires duration > 0.0
    ensures 0.0 <= p <= 1.0
    ensures elapsed >= duration ==> p == 1.0
    ensures elapsed <= 0.0 ==> p == 0.0
  {
    var t := Clamp01(elapsed / duration);
    assert elapsed >= duration ==> elapsed / duration >= 1.0;
    assert elapsed <= 0.0 ==> elapsed / duration <= 0.0;
    EaseInUnitInterval(t);
    Ease(t)
  }

  lemma ProgressMonotone(e1: real, e2: real, duration: real)
    requires duration > 0.0
    requires e1 <= e2
    ensures Progress(e1, duration) <= Progress(e2, duration)
  {
    DivMonotone(e1, e2, duration);
    EaseMonotone(Clamp01(e1 / duration), Clamp01(e2 / duration));
  }

  /** Angle shown after `elapsed` of a spin of length `duration` from
      `initial` towards `target`. */
  function FrameAngle(initial: real, target: real, elapsed: real, duration: real): (r: real)
    requires duration > 0.0
    ensures initial <= target ==> initial <= r <= target
    ensures target <= initial ==> target <= r <= initial
    ensures elapsed >= duration ==> r == target
    ensures elapsed <= 0.0 ==> r == initial
  {
    Lerp(initial, target, Progress(elapsed, duration))
  }

  /** Between two frames of one spin the wheel moves towards the target and
      never back. */
  lemma FrameAngleMonotone(initial: real, target: real, e1: real, e2: real, duration: real)
    requires duration > 0.0
    requires initial <= target
    requires e1 <= e2
    ensures FrameAngle(initial, target, e1, duration) <= FrameAngle(initial, target, e2, duration)
  {
    ProgressMonotone(e1, e2, duration);
    LerpMonotone(initial, target, Progress(e1, duration), Progress(e2, duration));
  }
}
