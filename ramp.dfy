/** The scroll-driven hue ramp (`getScrollHue`): piecewise-linear
    interpolation over four fixed hue stops, with the progress clamped to
    [0, 0.9999] so that the segment index stays in range. */
module ScrollRamp {
  import opened Easing

  /** Dawn, day, evening and night hues, in degrees. */
  const Stops: seq<real> := [210.0, 186.0, 25.0, 230.0]
  /** Upper clamp of the progress; keeps `floor(progress * 3)` below 3. */
  const ProgressCap: real := 0.9999

  function Clamp(progress: real): (c: real)
    ensures 0.0 <= c <= ProgressCap
    ensures 0.0 <= progress <= ProgressCap ==> c == progress
    ensures progress <= 0.0 ==> c == 0.0
    ensures ProgressCap <= progress ==> c == ProgressCap
  {
    Min(ProgressCap, Max(0.0, progress))
  }

  /** The segment the progress falls in: always 0, 1 or 2, thanks to the clamp. */
  function Segment(progress: real): (seg: int)
    ensures 0 <= seg < |Stops| - 1
  {
    (Clamp(progress) * (|Stops| - 1) as real).Floor
  }

  /** `getScrollHue`: the hue for a scroll progress. It always lies between
      the two stops of its segment, hence within [25, 230]. */
  function ScrollHue(progress: real): (h: real)
    ensures Between(h, Stops[Segment(progress)], Stops[Segment(progress) + 1])
    ensures 25.0 <= h <= 230.0
  {
    var segments := |Stops| - 1;
    var scaled := Clamp(progress) * segments as real;
    var seg := Segment(progress);
    var local := scaled - seg as real;
    var start := Stops[seg];
    var end := Stops[if seg + 1 < |Stops| - 1 then seg + 1 else |Stops| - 1];
    var step := (end - start) * local;
    ScaledGapBounds(end - start, local, step);
    start + step
  }

  /** No scroll (or a negative progress) gives the first stop. */
  lemma ScrollHueAtTop(progress: real)
    requires progress <= 0.0
    ensures ScrollHue(progress) == 210.0
  {
    assert Clamp(progress) == 0.0;
  }

  /** Halfway down the page is the middle of the day-to-evening segment. */
  lemma ScrollHueHalfway()
    ensures ScrollHue(0.5) == 105.5
  {
    assert Clamp(0.5) == 0.5;
    assert Segment(0.5) == 1;
  }

  /** From the clamp onward the hue is fixed just short of the last stop. */
  lemma ScrollHueAtBottom(progress: real)
    requires progress >= ProgressCap
    ensures ScrollHue(progress) == 229.9385
  {
    assert Clamp(progress) == ProgressCap;
    assert Segment(progress) == 2;
  }

  /** The ramp passes through each of the first three stops exactly, at
      progress 0, 1/3 and 2/3. */
  lemma ScrollHueAtStops()
    ensures ScrollHue(0.0) == Stops[0]
    ensures ScrollHue(1.0 / 3.0) == Stops[1]
    ensures ScrollHue(2.0 / 3.0) == Stops[2]
  {
    assert Segment(0.0) == 0;
    assert Segment(1.0 / 3.0) == 1;
    assert Segment(2.0 / 3.0) == 2;
  }

  /** Over the first two thirds of the page the hue only falls (210 to 186
      to 25); from two thirds on it only rises (from 25 toward 230). */
  lemma ScrollHueFallsThenRises(p: real, q: real)
    requires p <= q
    ensures q <= 2.0 / 3.0 ==> ScrollHue(q) <= ScrollHue(p)
    ensures 2.0 / 3.0 <= p ==> ScrollHue(p) <= ScrollHue(q)
  {
    var sp, sq := Segment(p), Segment(q);
    var cp, cq := Clamp(p), Clamp(q);
    assert cp <= cq;
    assert sp <= sq;
    var lp, lq := cp * 3.0 - sp as real, cq * 3.0 - sq as real;
    if q <= 2.0 / 3.0 {
      if sp == sq {
        assert lp <= lq;
        SlopeOrder(Stops[sp + 1] - Stops[sp], lp, lq);
      } else {
        assert ScrollHue(q) <= Stops[sq] <= Stops[sp + 1] <= ScrollHue(p);
      }
    }
    if 2.0 / 3.0 <= p {
      assert sp == 2 && sq == 2;
      assert lp <= lq;
      SlopeOrder(Stops[3] - Stops[2], lp, lq);
    }
  }

  /** A positive slope preserves order, a negative one reverses it. */
  lemma SlopeOrder(slope: real, a: real, b: real)
    requires a <= b
    ensures 0.0 <= slope ==> slope * a <= slope * b
    ensures slope <= 0.0 ==> slope * b <= slope * a
  {
    if 0.0 <= slope {
      assert slope * (b - a) >= 0.0;
    } else {
      assert (-slope) * (b - a) >= 0.0;
    }
  }
}
