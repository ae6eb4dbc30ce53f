/** The dye state machine: the dye record (intensity, hue, centre), the
    pointer sample, the smoothed scroll state and the hover override, as the
    page's event handlers and its per-frame step change them. */
module Dye {
  import opened Wrappers
  import opened Easing
  import opened Color
  import opened ScrollRamp
  import opened Accent

  /** Intensity added by every pointer move. */
  const IntensityStep: real := 0.018
  /** Share of the scroll progress that the intensity is raised to each frame. */
  const ScrollPressure: real := 0.9

  /** The intensity after one pointer move: one step more, capped at 1. */
  function PointerIntensity(i: real): (r: real)
    ensures r <= 1.0
    ensures i <= 1.0 ==> i <= r
    ensures r == 1.0 || r == i + IntensityStep
    ensures i + IntensityStep <= 1.0 ==> r == i + IntensityStep
  {
    Min(1.0, i + IntensityStep)
  }

  /** The intensity after `n` pointer moves. */
  function PointerMoves(i: real, n: nat): real
  {
    if n == 0 then i else PointerIntensity(PointerMoves(i, n - 1))
  }

  /** From zero, `n` pointer moves give an intensity of `min(1, 0.018 * n)`. */
  lemma {:induction false} PointerMovesFromZero(n: nat)
    ensures PointerMoves(0.0, n) == Min(1.0, IntensityStep * n as real)
  {
    if n > 0 {
      PointerMovesFromZero(n - 1);
    }
  }

  /** Pointer moves alone take the intensity from 0 to exactly 1 on the 56th
      move, not before, and it stays there. */
  lemma PointerMovesSaturate(n: nat)
    ensures PointerMoves(0.0, 55) < 1.0
    ensures n >= 56 ==> PointerMoves(0.0, n) == 1.0
  {
    PointerMovesFromZero(55);
    PointerMovesFromZero(n);
  }

  /** The intensity after a frame at the given scroll progress: raised to at
      least 0.9 of the progress, never lowered, never above 1. */
  function FrameIntensity(i: real, progress: real): (r: real)
    ensures r <= 1.0
    ensures i <= 1.0 ==> i <= r
    ensures Min(1.0, ScrollPressure * progress) <= r
    ensures r == 1.0 || r == i || r == ScrollPressure * progress
    ensures r <= Max(i, ScrollPressure * progress)
  {
    Min(1.0, Max(i, ScrollPressure * progress))
  }

  /** A deeper scroll never gives a lower intensity after the frame. */
  lemma FrameIntensityMonotone(i: real, j: real, p: real, q: real)
    requires i <= j && p <= q
    ensures FrameIntensity(i, p) <= FrameIntensity(j, q)
  {
    assert ScrollPressure * p <= ScrollPressure * q;
  }

  /** The inputs that change the intensity. */
  datatype IntensityInput = PointerMoved | FrameAt(progress: real)

  function IntensityAfter(i: real, inputs: seq<IntensityInput>): real
    decreases |inputs|
  {
    if inputs == [] then i
    else
      var last := inputs[|inputs| - 1];
      var before := IntensityAfter(i, inputs[..|inputs| - 1]);
      match last
      case PointerMoved => PointerIntensity(before)
      case FrameAt(p) => FrameIntensity(before, p)
  }

  /** Whatever mix of pointer moves and frames arrives, an intensity that
      starts in [0, 1] stays in [0, 1] and never falls: there is no decay. */
  lemma {:induction false} IntensityNeverFalls(i: real, inputs: seq<IntensityInput>)
    requires 0.0 <= i <= 1.0
    ensures i <= IntensityAfter(i, inputs) <= 1.0
  {
    if inputs != [] {
      IntensityNeverFalls(i, inputs[..|inputs| - 1]);
    }
  }

  /** The hue a frame blends toward: the hover override when one is set,
      otherwise the scroll ramp. */
  function ActiveHue(override: Option<int>, progress: real): (h: real)
    ensures override.Some? ==> h == override.value as real
    ensures override.None? ==> 25.0 <= h <= 230.0
    ensures ValidOverride(override) ==> 0.0 <= h < 360.0
  {
    match override
    case Some(h) => h as real
    case None => ScrollHue(progress)
  }

  /** The hue after one frame: 0.92 of the gap to the active hue remains. */
  function BlendHue(hue: real, override: Option<int>, progress: real): (r: real)
    ensures ActiveHue(override, progress) - r == 0.92 * (ActiveHue(override, progress) - hue)
  {
    EaseTo(hue, ActiveHue(override, progress), HueSpeed)
  }

  predicate ValidOverride(override: Option<int>) {
    override.Some? ==> 0 <= override.value < 360
  }

  /** One frame keeps the hue in [0, 360), and moves it toward the override
      when there is one and toward the scroll ramp otherwise. */
  lemma BlendHueInRange(hue: real, override: Option<int>, progress: real)
    requires 0.0 <= hue < 360.0 && ValidOverride(override)
    ensures 0.0 <= BlendHue(hue, override, progress) < 360.0
    ensures override.Some? ==> Between(BlendHue(hue, override, progress), hue, override.value as real)
    ensures override.None? ==> Between(BlendHue(hue, override, progress), hue, ScrollHue(progress))
  {
    EaseStaysInInterval(hue, ActiveHue(override, progress), HueSpeed, 0.0, 360.0);
  }

  /** What one frame sees: the override then in force and the scroll progress. */
  datatype FrameInput = FrameInput(override: Option<int>, progress: real)

  function HueAfter(hue: real, frames: seq<FrameInput>): real
    decreases |frames|
  {
    if frames == [] then hue
    else
      var f := frames[|frames| - 1];
      BlendHue(HueAfter(hue, frames[..|frames| - 1]), f.override, f.progress)
  }

  /** For any sequence of frames, with or without hover overrides and at any
      scroll progress, the blended hue stays in [0, 360). */
  lemma {:induction false} HueStaysInRange(hue: real, frames: seq<FrameInput>)
    requires 0.0 <= hue < 360.0
    requires forall k :: 0 <= k < |frames| ==> ValidOverride(frames[k].override)
    ensures 0.0 <= HueAfter(hue, frames) < 360.0
  {
    if frames != [] {
      var n := |frames| - 1;
      HueStaysInRange(hue, frames[..n]);
      BlendHueInRange(HueAfter(hue, frames[..n]), frames[n].override, frames[n].progress);
    }
  }

  /** After a hover ends, frames at a fixed scroll progress close the gap to
      the scroll-ramp hue by the factor 0.92 each: `0.92^n` of it remains. */
  lemma {:induction false} HueSettlesAfterLeave(hue: real, progress: real, n: nat)
    ensures ScrollHue(progress) - HueAfter(hue, seq(n, _ => FrameInput(None, progress)))
            == Pow(0.92, n) * (ScrollHue(progress) - hue)
  {
    SettledFramesAreEasing(hue, progress, n);
    HueGapAfterFrames(hue, ScrollHue(progress), n);
  }

  lemma {:induction false} SettledFramesAreEasing(hue: real, progress: real, n: nat)
    ensures HueAfter(hue, seq(n, _ => FrameInput(None, progress)))
            == EaseSteps(hue, ScrollHue(progress), HueSpeed, n)
  {
    if n > 0 {
      var frames := seq(n, _ => FrameInput(None, progress));
      assert frames[..n - 1] == seq(n - 1, _ => FrameInput(None, progress));
      SettledFramesAreEasing(hue, progress, n - 1);
    }
  }

  /** The hue a hover snaps to: none when the item has no swatch (absent or
      empty) or when the swatch does not parse. The early return for a
      missing or empty swatch changes nothing the conversion would not
      already refuse: a hover snaps exactly when the swatch is a well-formed
      hex colour, and then to its hue in [0, 360). */
  function HoverHue(color: Option<string>): (h: Option<int>)
    ensures h.Some? <==> color.Some? && IsHexColor(color.value)
    ensures h.Some? ==> h == ColorToHue(color.value)
    ensures ValidOverride(h)
  {
    if color.None? || color.value == "" then None else ColorToHue(color.value)
  }

  /** `document.body.scrollHeight - window.innerHeight || 1`: the scrollable
      height, or 1 when it is zero, so that it can always divide. */
  function ScrollRange(scrollHeight: real, innerHeight: real): (m: real)
    ensures m != 0.0
    ensures m == scrollHeight - innerHeight || m == 1.0
    ensures scrollHeight - innerHeight != 0.0 ==> m == scrollHeight - innerHeight
  {
    if scrollHeight - innerHeight != 0.0 then scrollHeight - innerHeight else 1.0
  }

  /** The persisted dye record. */
  datatype Snapshot = Snapshot(intensity: real, x: real, y: real, hue: real)

  /** A record this page could have written: intensity and hue in range. */
  predicate SnapshotInRange(s: Snapshot) {
    0.0 <= s.intensity <= 1.0 && 0.0 <= s.hue < 360.0
  }

  /** The page's animated colour state. */
  class DyeModel {
    var intensity: real
    var hue: real
    /** Centre of the dye, eased toward the pointer. */
    var x: real
    var y: real
    /** Last pointer position in viewport pixels. */
    var pointerX: real
    var pointerY: real
    /** Pointer position normalised to [-1, 1] (used by the 3D vessel). */
    var px: real
    var py: real
    var currentY: real
    var targetY: real
    /** Scroll progress of the last frame. */
    var scroll: real
    /** The hover override hue, if a hover is in progress. */
    var override: Option<int>

    ghost predicate Valid()
      reads this
    {
      0.0 <= intensity <= 1.0 && 0.0 <= hue < 360.0 && ValidOverride(override)
    }

    /** What `persistState` writes. */
    function Saved(): Snapshot
      reads this
    {
      Snapshot(intensity, x, y, hue)
    }

    /** Start-up: defaults (intensity 0, centre at (50%, 45%) of the
        viewport, hue 210), replaced by a saved record when there is one; a
        zero hue falls back to the time-of-day accent hue. The pointer
        sample keeps the default centre. */
    constructor (hour: int, innerWidth: real, innerHeight: real, scrollY: real, saved: Option<Snapshot>)
      requires saved.Some? ==> SnapshotInRange(saved.value)
      ensures Valid()
      ensures saved.Some? && saved.value.hue != 0.0 ==> Saved() == saved.value
      ensures saved.Some? && saved.value.hue == 0.0 ==>
                Saved() == saved.value.(hue := TimeBasedAccent(hour).hue as real)
      ensures saved.None? ==> Saved() == Snapshot(0.0, innerWidth * 0.5, innerHeight * 0.45, 210.0)
      ensures pointerX == innerWidth * 0.5 && pointerY == innerHeight * 0.45
      ensures px == 0.0 && py == 0.0 && scroll == 0.0
      ensures currentY == scrollY && targetY == scrollY
      ensures override == None
    {
      var defaults := Snapshot(0.0, innerWidth * 0.5, innerHeight * 0.45, 210.0);
      var s := if saved.Some? then saved.value else defaults;
      intensity, x, y := s.intensity, s.x, s.y;
      hue := if s.hue == 0.0 then TimeBasedAccent(hour).hue as real else s.hue;
      pointerX, pointerY := defaults.x, defaults.y;
      px, py, scroll := 0.0, 0.0, 0.0;
      currentY, targetY := scrollY, scrollY;
      override := None;
    }

    /** The `mousemove` handler. */
    method PointerMove(clientX: real, clientY: real, innerWidth: real, innerHeight: real)
      requires Valid()
      requires innerWidth > 0.0 && innerHeight > 0.0
      modifies this
      ensures Valid()
      ensures pointerX == clientX && pointerY == clientY
      ensures px == clientX / innerWidth * 2.0 - 1.0 && py == clientY / innerHeight * 2.0 - 1.0
      ensures intensity == PointerIntensity(old(intensity))
      ensures old(intensity) <= intensity
      ensures hue == old(hue) && override == old(override) && x == old(x) && y == old(y)
      ensures currentY == old(currentY) && targetY == old(targetY) && scroll == old(scroll)
    {
      pointerX, pointerY := clientX, clientY;
      px := clientX / innerWidth * 2.0 - 1.0;
      py := clientY / innerHeight * 2.0 - 1.0;
      intensity := PointerIntensity(intensity);
    }

    /** The `scroll` listener: records the new target offset only. */
    method ScrollTo(scrollY: real)
      modifies this`targetY
      ensures targetY == scrollY
    {
      targetY := scrollY;
    }

    /** The `mouseenter` handler of a journal item with the given swatch. */
    method HoverEnter(color: Option<string>)
      requires Valid()
      modifies this`hue, this`override
      ensures Valid()
      ensures HoverHue(color).Some? ==> override == HoverHue(color) && hue == override.value as real
      ensures HoverHue(color).None? ==> hue == old(hue) && override == old(override)
    {
      if color.None? || color.value == "" {
        return;
      }
      var h := ColorToHue(color.value);
      if h.Some? {
        override := h;
        hue := h.value as real;
      }
    }

    /** The `mouseleave` handler: clears the override, leaves the hue. */
    method HoverLeave()
      requires Valid()
      modifies this`override
      ensures Valid()
      ensures override == None
    {
      override := None;
    }

    /** The state lines of `applySmoothScrollEffects`. */
    method ApplySmoothScrollEffects(scrollHeight: real, innerHeight: real)
      requires Valid()
      modifies this`currentY, this`scroll, this`intensity, this`hue
      ensures Valid()
      ensures targetY - currentY == (1.0 - ScrollSpeed) * (targetY - old(currentY))
      ensures Between(currentY, old(currentY), targetY)
      ensures scroll == currentY / ScrollRange(scrollHeight, innerHeight)
      ensures intensity == FrameIntensity(old(intensity), scroll)
      ensures old(intensity) <= intensity
      ensures hue == BlendHue(old(hue), override, scroll)
    {
      var max := ScrollRange(scrollHeight, innerHeight);
      EaseToBetween(currentY, targetY, ScrollSpeed);
      currentY := EaseTo(currentY, targetY, ScrollSpeed);
      scroll := currentY / max;
      intensity := FrameIntensity(intensity, scroll);
      BlendHueInRange(hue, override, scroll);
      hue := BlendHue(hue, override, scroll);
    }

    /** The state changes of one animation frame (`tick`): the dye centre
        eases toward the pointer, then the scroll effects run. */
    method Tick(scrollHeight: real, innerHeight: real)
      requires Valid()
      modifies this`x, this`y, this`currentY, this`scroll, this`intensity, this`hue
      ensures Valid()
      ensures x == EaseTo(old(x), pointerX, PointerSpeed) && y == EaseTo(old(y), pointerY, PointerSpeed)
      ensures currentY == EaseTo(old(currentY), targetY, ScrollSpeed)
      ensures scroll == currentY / ScrollRange(scrollHeight, innerHeight)
      ensures intensity == FrameIntensity(old(intensity), scroll)
      ensures hue == BlendHue(old(hue), override, scroll)
    {
      x := EaseTo(x, pointerX, PointerSpeed);
      y := EaseTo(y, pointerY, PointerSpeed);
      ApplySmoothScrollEffects(scrollHeight, innerHeight);
    }
  }
}
