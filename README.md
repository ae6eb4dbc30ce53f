# Ambient dye and content-path model of a marketing page script

The page script (`script.js`) drives a soft colour field, the "dye", behind a
marketing page. The field follows the pointer, the scroll position, the time of
day and hovers over journal items. This project models its core in Dafny and proves properties of
that model:

- **Easing** (`easing.dfy`). The damped step `easeTo` that every animated
  quantity uses, and what repeating it does to the remaining gap.
- **Colour conversion** (`color.dfy`). `colorToHue` turns a `#rrggbb` swatch
  into a hue in whole degrees. The model covers the swatch syntax, the three
  channels, the max/min hue extraction, JavaScript's `%` (truncated remainder)
  and `Math.round` (halves upward).
- **Scroll ramp** (`ramp.dfy`). `getScrollHue` interpolates piecewise-linearly
  over the stops 210, 186, 25 and 230, with the progress clamped to
  [0, 0.9999].
- **Time-of-day accent** (`accent.dfy`). `getTimeBasedAccent` picks a swatch
  and hue by hour. The hour is a parameter.
- **The dye state machine** (`dye.dfy`). A class `DyeModel` holds:
  - the dye record (intensity, hue, centre);
  - the pointer sample and its normalised projection;
  - the smoothed scroll state and the last scroll progress;
  - the hover override hue.

  Its methods are the page's handlers: pointer move, scroll, hover enter,
  hover leave, the per-frame `applySmoothScrollEffects` and the easing lines
  of `tick`. Beside them are the functions that specify one frame
  (`FrameIntensity`, `BlendHue`) and lemmas about any number of frames.
- **Content paths** (`paths.dfy`, `jsnumber.dfy`). `getByPath` and
  `setByPath` read and write the editable content record at dotted paths such
  as `journal.0.body`:
  - the record is a tree of string-keyed objects and arrays;
  - `setByPath` is a function returning the updated tree;
  - `ContentStore.Set` is the in-place form, a walk down the path and a
    rebuild back out;
  - `jsnumber.dfy` models `Number(key)`'s NaN test, which decides whether a
    missing container becomes an array or a plain object. It follows the
    StringNumericLiteral grammar of ECMA-262, section 7.1.4.1.

Arithmetic uses Dafny's exact `real`, not IEEE doubles. Because of this, the
division of each channel by 255 in `colorToHue` cancels exactly in every ratio
and is left out.

Two details of the code matter to the model:

- The scroll progress `currentY / max` (script.js:214) is not clamped. It is
  used as it is, both for the intensity floor and as the argument of
  `getScrollHue`, which clamps internally.
- The scrollable height `scrollHeight - innerHeight || 1` (script.js:212)
  replaces only a zero height by 1. A negative height, on a page shorter than
  the window, is kept. This is `Dye.ScrollRange`.

## Model

| member | source | states |
|---|---|---|
| Easing.EaseTo | script.js:32-34 | the gap left to the target after one step is `(1 - speed)` times the gap before it |
| Easing.EaseToBetween | script.js:32-34 | with a speed in [0, 1] a step never overshoots: the result lies between the current value and the target |
| Easing.EaseStaysInInterval | script.js:32-34 | easing between two values of an interval [lo, hi) stays in it, so a hue in [0, 360) eased toward one in [0, 360) stays there |
| Easing.EaseStepsGap | script.js:32-34 | after n steps toward a fixed target `(1 - speed)^n` of the initial gap remains |
| Easing.HueGapAfterFrames | script.js:32-34 | at the default hue speed 0.08, `0.92^n` of the hue gap remains after n frames |
| Easing.EaseStepsBetween | script.js:32-34 | any number of steps with a speed in [0, 1] stays between the start and the target |
| Accent.TimeBasedAccent | script.js:24-30 | hours 5-10 give the morning accent (hue 215), 11-16 the day one (186), 17-20 the evening one (25), every other hour the night one (230), each an "if and only if"; every swatch is a well-formed hex colour and every hue is in [0, 360) |
| Accent.AccentHueMatchesSwatch | script.js:24-30 | the hue paired with each accent swatch is within 5 degrees of what colour conversion gives the swatch itself |
| Color.ParseHexColor | script.js:123-127 | a swatch parses exactly when it is an optional `#` followed by six hex digits of either case, and nothing more |
| Color.ParseFormatRoundTrip | script.js:123-127 | parsing the canonical spelling of any colour gives that colour back |
| Color.FormatParseRoundTrip | script.js:123-127 | formatting a parsed swatch gives its digits back, lower-cased, after a `#` |
| Color.Round | script.js:137 | `Math.round`: the result is within half a unit of its argument, halves rounding up |
| Color.TruncRem | script.js:133 | JavaScript's `%`: the dividend minus the remainder is a whole multiple of the divisor, the remainder has the sign of the dividend and is smaller in size than the divisor, and it is the dividend itself when that is already smaller |
| Color.Hue | script.js:128-139 | the hue is in [0, 360) and is 0 for a grey |
| Color.Sector | script.js:128-136 | the hue before scaling to degrees is in [-1, 1] when red is the maximum, [1, 3] when green is, and [3, 5] when blue is; `HueFollowsDominantChannel` and `HueShiftInvariant` carry this through rounding and wrapping |
| Color.HueFollowsDominantChannel | script.js:128-139 | red-dominated colours get a hue within 60 degrees of 0, green-dominated ones a hue in [60, 180], blue-dominated ones a hue in [180, 300] |
| Color.HueShiftInvariant | script.js:128-139 | adding the same amount to all three channels leaves the hue unchanged |
| Color.ColorToHue | script.js:122-140 | the result is null exactly when the swatch is malformed, and otherwise an integer in [0, 360) |
| Color.GreySwatchHasHueZero | script.js:130-137 | a swatch with three equal channels has hue 0 |
| Color.PrimaryHues | script.js:122-140 | red, green and blue (with or without `#`) convert to 0, 120 and 240 |
| Color.SecondaryHues | script.js:122-140 | yellow, cyan (upper-case digits) and magenta convert to 60, 180 and 300 |
| ScrollRamp.Clamp | script.js:149 | the clamped progress is in [0, 0.9999]: the progress itself when already in range, 0 below it and 0.9999 above it |
| ScrollRamp.Segment | script.js:150 | the segment index is always 0, 1 or 2, so both stops it reads exist |
| ScrollRamp.ScrollHue | script.js:146-155 | the hue lies between the two stops of its segment, and so within [25, 230] |
| ScrollRamp.ScrollHueAtTop | script.js:146-155 | a progress of 0 or below gives 210 |
| ScrollRamp.ScrollHueHalfway | script.js:146-155 | progress 0.5 gives 105.5 |
| ScrollRamp.ScrollHueAtBottom | script.js:146-155 | a progress of 0.9999 or more gives 229.9385 |
| ScrollRamp.ScrollHueAtStops | script.js:146-155 | progress 0, 1/3 and 2/3 give exactly the first three stops |
| ScrollRamp.ScrollHueFallsThenRises | script.js:146-155 | the hue never rises as progress grows up to 2/3, and never falls as progress grows from 2/3 |
| Dye.PointerIntensity | script.js:235 | one pointer move adds exactly 0.018 while that stays within 1, and otherwise sets the intensity to 1; it never goes above 1 and never lowers an intensity of at most 1 |
| Dye.PointerMovesFromZero | script.js:235 | from 0, n pointer moves give `min(1, 0.018 n)` |
| Dye.PointerMovesSaturate | script.js:235 | from 0, the intensity is still below 1 after 55 moves and is exactly 1 from the 56th on |
| Dye.FrameIntensity | script.js:215 | after a frame the intensity is at most 1 and at most `max(old, 0.9 progress)`, at least `min(1, 0.9 progress)`, and not below an old value of at most 1 |
| Dye.FrameIntensityMonotone | script.js:215 | a larger old intensity or a deeper scroll never gives a lower intensity after the frame |
| Dye.IntensityNeverFalls | script.js:212-236 | under any mix of pointer moves and frames, an intensity in [0, 1] stays in [0, 1] and never decreases |
| Dye.ActiveHue | script.js:217-218 | the hue a frame blends toward is the override when one is set, and otherwise the ramp hue, which is within [25, 230]; it is in [0, 360) whenever the override is |
| Dye.BlendHue | script.js:219 | after a frame 0.92 of the gap to the active hue remains; `BlendHueInRange`, `HueStaysInRange` and `HueSettlesAfterLeave` build on this |
| Dye.BlendHueInRange | script.js:217-219 | a frame keeps the hue in [0, 360) and moves it toward the override when one is set, and toward the scroll-ramp hue otherwise |
| Dye.HueStaysInRange | script.js:217-219 | over any sequence of frames, with or without overrides and at any progress, the hue stays in [0, 360) |
| Dye.SettledFramesAreEasing | script.js:217-219 | frames without an override at a fixed progress are repeated easing toward that progress's ramp hue |
| Dye.HueSettlesAfterLeave | script.js:217-219 | once the override is cleared, `0.92^n` of the gap to the ramp hue remains after n frames at a fixed progress |
| Dye.HoverHue | script.js:169-173 | a hover yields a hue exactly when the item's swatch is a well-formed hex colour (so the early return for a missing or empty swatch refuses nothing extra), and that hue is the swatch's converted hue, in [0, 360) |
| Dye.ScrollRange | script.js:212 | the scrollable height is never 0: a nonzero height, negative ones included, is kept as it is, and only a zero height becomes 1 |
| Dye.DyeModel.constructor | script.js:11-21 | start-up, with the defaults declared here and the start-up sequence at script.js:440-448: a saved record replaces the defaults (intensity 0, centre at 50% / 45% of the window, hue 210), a zero hue falls back to the hour's accent hue, both scroll offsets start at the window's scroll position, and there is no override |
| Dye.DyeModel.PointerMove | script.js:230-236 | records the pointer, projects it onto [-1, 1], raises the intensity by one capped step, and leaves the hue, override, dye centre and scroll state alone |
| Dye.DyeModel.ScrollTo | script.js:206-208 | sets only the scroll target |
| Dye.DyeModel.HoverEnter | script.js:168-179 | a well-formed swatch sets the override and snaps the hue to its converted hue without easing; an absent, empty or malformed swatch changes neither |
| Dye.DyeModel.HoverLeave | script.js:180-182 | clears the override and nothing else |
| Dye.DyeModel.ApplySmoothScrollEffects | script.js:212-219 | moves the smoothed offset 0.11 of the way to the target without overshooting, sets the progress to offset over scrollable height, raises the intensity by the frame rule, and blends the hue; intensity and hue stay in range |
| Dye.DyeModel.Tick | script.js:432-434 | eases the dye centre toward the pointer at 0.06, then performs the scroll effects |
| ContentPath.Split | script.js:53 | `split('.')` gives at least one piece and no piece contains a dot |
| ContentPath.JoinSplit | script.js:53 | joining the pieces of a split path with dots gives the path back |
| ContentPath.SplitJoin | script.js:53 | splitting dot-joined, dot-free keys gives the keys back |
| ContentPath.ReadThroughMissing | script.js:53-56 | reading any keys through undefined or null yields undefined |
| ContentPath.GetByPath | script.js:52-57 | an undefined or null record reads as undefined under any path |
| ContentPath.MissingAnywhere | script.js:52-57 | once the read along a path reaches a missing key or a null value, at any depth, the whole path reads as undefined |
| ContentPath.MissingKeyReadsUndefined | script.js:52-57 | a path whose first key is missing from the record reads as undefined |
| ContentPath.Put | script.js:68 | storing under a key sets that key, keeps every other key and keeps the container's kind |
| ContentPath.Fresh | script.js:64 | a created container is an array exactly when its key is numeric, and an object otherwise |
| ContentPath.DescendWritable | script.js:62-67 | the walk only ever reaches containers |
| ContentPath.SetKeys | script.js:59-69 | writing keeps the record's own kind |
| ContentPath.SetByPath | script.js:59-69 | the written record keeps its kind, and the path then reads back the value written; `SetLeavesOthers` and `SetIntermediates` say what else changes |
| ContentPath.SetLeavesOthers | script.js:59-69 | a path that is neither a prefix nor an extension of the written path reads as before |
| ContentPath.SetIntermediates | script.js:62-67 | every intermediate on the path is a container afterwards: an existing one keeps its kind, and a missing one becomes an array when its key is numeric and an object otherwise |
| ContentPath.Walk | script.js:62-67 | the loop over all keys but the last visits, in order, the record and each child it descends into, creating missing ones |
| ContentPath.Rebuild | script.js:62-68 | storing the value in the last container and carrying it back out through the walk gives exactly `setByPath`'s result |
| ContentPath.ContentStore.Set | script.js:59-69 | the record becomes `setByPath` of the old record, and the path then reads the value back |
| JsNumber.IsNumericKey | script.js:64 | `!Number.isNaN(Number(key))` by the StringNumericLiteral grammar of ECMA-262, section 7.1.4.1; which keys pass is stated by `BlankKeyIsNumeric`, `DigitKeyIsNumeric` and `WordKeyIsNotNumeric` |
| JsNumber.BlankKeyIsNumeric | script.js:64 | an empty or blank key converts to 0, so it is numeric and gets an array |
| JsNumber.DigitKeyIsNumeric | script.js:64 | an index key such as `0` or `12` is numeric |
| JsNumber.WordKeyIsNotNumeric | script.js:64 | a key starting with a letter other than `I` is not numeric, so it gets a plain object |

## Left out

- The 3D vessel: mesh deformation, rotation and bob (script.js:395-425). It is floating-point trigonometry driving an external rendering library.
- `drawDye`, `setAmbientColor`, the CSS custom-property strings, the accent colour written at start-up, and the parallax transforms. These are canvas and DOM output only.
- `loadState`, `persistState`, `loadContent`, `persistContent` and the contact form, which are storage and JSON I/O. Instead:
  - the constructor takes the restored record as an `Option`, where `None` stands for a missing or malformed blob;
  - `DyeModel.Saved` is the record that would be written.
- `requestAnimationFrame` scheduling, resize handling, the reveal observer, wobble text, the journal rail, smooth anchors and edit mode. These are browser event plumbing.
- The clock. `Date().getHours()` becomes the `hour` parameter.
- Window and event values become parameters: pointer coordinates, window sizes, scroll offsets, page height and the hovered item's `data-color`.
- IEEE-754 rounding. All arithmetic is exact; no claim is made about floating-point error.
- Dye.DyeModel.constructor: only a complete restored record with intensity in [0, 1] and hue in [0, 360) is accepted. `Object.assign` would also merge partial or out-of-range records. The falsy test on the hue is modelled for 0 only, not for NaN or a missing hue.
- Dye.DyeModel.PointerMove: requires positive window dimensions. With a zero dimension the source's projection would be Infinity or NaN.
- ContentPath.SetByPath: requires the record, and every intermediate on the path that already exists, to be an object or array. The source behaves otherwise there. A null intermediate makes it throw. A primitive intermediate silently drops the creation of the next container, the walk then reads undefined, and the next step or the final store throws a TypeError; only a primitive that is the last container silently drops the write, and only outside strict mode.
- ContentPath.SetByPath: an inherited key such as `constructor`, `toString` or `__proto__` is not undefined in the source, so the walk descends into the inherited value (for `__proto__`, the shared object prototype). The model treats such a key like any other missing key and creates a fresh container.
- ContentPath.ContentStore.Set: shared references are not modelled. The in-place write reaches the record by rebuilding the containers on the path, so aliasing of a container from elsewhere is not captured.
- ContentPath.Lookup: indexing a non-container yields undefined. Inherited properties, string character indices and an array's `length` are not modelled.
- ContentPath.NumericFlags: `Number(key)` is worked out for every key before the walk, not during it. It is pure, so the result is the same.
