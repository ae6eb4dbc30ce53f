/** The damped step (`easeTo`) that every animated quantity of the page uses,
    and what repeating it frame after frame does to the remaining gap. */
module Easing {

  /** Rate at which the hue follows its target each frame (the default of `easeTo`). */
  const HueSpeed: real := 0.08
  /** Rate at which the dye centre follows the pointer each frame. */
  const PointerSpeed: real := 0.06
  /** Rate at which the smoothed scroll offset follows the real one each frame. */
  const ScrollSpeed: real := 0.11

  function Min(a: real, b: real): (m: real)
    ensures m <= a && m <= b && (m == a || m == b)
  {
    if a <= b then a else b
  }

  function Max(a: real, b: real): (m: real)
    ensures a <= m && b <= m && (m == a || m == b)
  {
    if a <= b then b else a
  }

  /** `x` lies on the closed segment between `a` and `b`, in either order. */
  predicate Between(x: real, a: real, b: real) {
    (a <= x <= b) || (b <= x <= a)
  }

  /** One damped step from `current` toward `target`: the gap to the target
      shrinks by the factor `1 - speed`. */
  function EaseTo(current: real, target: real, speed: real): (r: real)
    ensures target - r == (1.0 - speed) * (target - current)
  {
    current + (target - current) * speed
  }

  /** For a speed in [0, 1] a step never overshoots: it lands between where
      it started and the target. */
  lemma EaseToBetween(current: real, target: real, speed: real)
    requires 0.0 <= speed <= 1.0
    ensures Between(EaseTo(current, target, speed), current, target)
  {
    var gap := target - current;
    var step := gap * speed;
    ScaledGapBounds(gap, speed, step);
    ShiftBetween(current, target, gap, step, EaseTo(current, target, speed));
  }

  /** Adding to `current` a step that lies between 0 and the gap lands between `current` and `target`. */
  lemma ShiftBetween(current: real, target: real, gap: real, step: real, r: real)
    requires gap == target - current && Between(step, 0.0, gap) && r == current + step
    ensures Between(r, current, target)
  {
  }

  /** Multiplying a gap by a factor in [0, 1] keeps it between 0 and the gap. */
  lemma ScaledGapBounds(gap: real, factor: real, p: real)
    requires 0.0 <= factor <= 1.0 && p == gap * factor
    ensures Between(p, 0.0, gap)
  {
    if gap >= 0.0 {
      MulNonNegative(gap, factor);
      MulNonNegative(gap, 1.0 - factor);
    } else {
      MulNonNegative(-gap, factor);
      MulNonNegative(-gap, 1.0 - factor);
    }
  }

  lemma MulNonNegative(a: real, b: real)
    requires 0.0 <= a && 0.0 <= b
    ensures 0.0 <= a * b
  {
  }

  /** Easing stays inside any interval that holds both ends: in particular a
      hue in [0, 360) eased toward a hue in [0, 360) stays in [0, 360). */
  lemma EaseStaysInInterval(current: real, target: real, speed: real, lo: real, hi: real)
    requires 0.0 <= speed <= 1.0
    requires lo <= current < hi && lo <= target < hi
    ensures lo <= EaseTo(current, target, speed) < hi
  {
    EaseToBetween(current, target, speed);
  }

  function Pow(x: real, n: nat): real
  {
    if n == 0 then 1.0 else x * Pow(x, n - 1)
  }

  /** The value after `n` frames of easing toward a fixed target. */
  function EaseSteps(current: real, target: real, speed: real, n: nat): real
  {
    if n == 0 then current else EaseTo(EaseSteps(current, target, speed, n - 1), target, speed)
  }

  /** After `n` frames toward a fixed target, `(1 - speed)^n` of the initial
      gap remains (for the hue, `0.92^n`). */
  lemma {:induction false} EaseStepsGap(current: real, target: real, speed: real, n: nat)
    ensures target - EaseSteps(current, target, speed, n) == Pow(1.0 - speed, n) * (target - current)
  {
    if n > 0 {
      EaseStepsGap(current, target, speed, n - 1);
      GapInduction(current, target, speed, n);
    }
  }

  /** The induction step: if `(1 - speed)^(n-1)` of the gap remains after
      `n - 1` frames, then `(1 - speed)^n` of it remains after `n`. */
  lemma GapInduction(current: real, target: real, speed: real, n: nat)
    requires n > 0
    requires target - EaseSteps(current, target, speed, n - 1) == Pow(1.0 - speed, n - 1) * (target - current)
    ensures target - EaseSteps(current, target, speed, n) == Pow(1.0 - speed, n) * (target - current)
  {
    GapStep(EaseSteps(current, target, speed, n - 1), EaseSteps(current, target, speed, n), target, speed,
            Pow(1.0 - speed, n - 1), Pow(1.0 - speed, n), target - current);
  }

  /** One more frame scales a remaining gap of `p * g` by `1 - speed`. */
  lemma GapStep(prev: real, next: real, target: real, speed: real, p: real, pw: real, g: real)
    requires next == EaseTo(prev, target, speed)
    requires target - prev == p * g
    requires pw == (1.0 - speed) * p
    ensures target - next == pw * g
  {
    var a := 1.0 - speed;
    assert target - next == a * (p * g);
  }

  /** The hue after `n` frames toward a fixed target leaves exactly `0.92^n` of the gap. */
  lemma HueGapAfterFrames(hue: real, target: real, n: nat)
    ensures target - EaseSteps(hue, target, HueSpeed, n) == Pow(0.92, n) * (target - hue)
  {
    EaseStepsGap(hue, target, HueSpeed, n);
  }

  /** Repeated easing with a speed in [0, 1] never leaves the segment between
      the start and the target. */
  lemma {:induction false} EaseStepsBetween(current: real, target: real, speed: real, n: nat)
    requires 0.0 <= speed <= 1.0
    ensures Between(EaseSteps(current, target, speed, n), current, target)
  {
    if n > 0 {
      EaseStepsBetween(current, target, speed, n - 1);
      EaseToBetween(EaseSteps(current, target, speed, n - 1), target, speed);
    }
  }
}
