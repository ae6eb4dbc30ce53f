/** The time-of-day accent (`getTimeBasedAccent`): a swatch and a hue for
    each hour of the day. The hour, which the source reads from the clock,
    is a parameter here. */
module Accent {
  import opened Wrappers
  import opened Color

  datatype TimeAccent = TimeAccent(color: string, hue: int)

  const Morning := TimeAccent("#5b8def", 215)
  const Day := TimeAccent("#35c8d2", 186)
  const Evening := TimeAccent("#f09a57", 25)
  const Night := TimeAccent("#4458b8", 230)

  /** `getTimeBasedAccent`: every hour gets a well-formed swatch and a hue in
      [0, 360) — 5 to 10 o'clock the morning accent, 11 to 16 the day one,
      17 to 20 the evening one and every other hour the night one. */
  function TimeBasedAccent(hour: int): (a: TimeAccent)
    ensures IsHexColor(a.color) && 0 <= a.hue < 360
    ensures 5 <= hour < 11 <==> a == Morning
    ensures 11 <= hour < 17 <==> a == Day
    ensures 17 <= hour < 21 <==> a == Evening
    ensures (hour < 5 || 21 <= hour) <==> a == Night
  {
    assert AllHexDigits(Morning.color[1..]) && AllHexDigits(Day.color[1..]);
    assert AllHexDigits(Evening.color[1..]) && AllHexDigits(Night.color[1..]);
    if 5 <= hour < 11 then Morning
    else if 11 <= hour < 17 then Day
    else if 17 <= hour < 21 then Evening
    else Night
  }

  /** The hue paired with each accent swatch is within 5 degrees of the hue
      the page's own colour conversion gives that swatch (220, 184, 26 and
      230), so the two never disagree visibly. */
  lemma AccentHueMatchesSwatch(hour: int)
    ensures var a := TimeBasedAccent(hour);
            ColorToHue(a.color).Some? && -5 <= ColorToHue(a.color).value - a.hue <= 5
  {
    var a := TimeBasedAccent(hour);
    if a == Morning {
      MorningSwatchHue();
    } else if a == Day {
      DaySwatchHue();
    } else if a == Evening {
      EveningSwatchHue();
    } else {
      NightSwatchHue();
    }
  }

  lemma MorningSwatchHue()
    ensures ColorToHue(Morning.color) == Some(220)
  {
    assert ParseHexColor(Morning.color) == Some(Rgb(91, 141, 239));
    assert Sector(Rgb(91, 141, 239)) == -50.0 / 148.0 + 4.0;
  }

  lemma DaySwatchHue()
    ensures ColorToHue(Day.color) == Some(184)
  {
    assert ParseHexColor(Day.color) == Some(Rgb(53, 200, 210));
    assert Sector(Rgb(53, 200, 210)) == -147.0 / 157.0 + 4.0;
  }

  lemma EveningSwatchHue()
    ensures ColorToHue(Evening.color) == Some(26)
  {
    assert ParseHexColor(Evening.color) == Some(Rgb(240, 154, 87));
    EveningSector();
  }

  lemma EveningSector()
    ensures Sector(Rgb(240, 154, 87)) == 67.0 / 153.0
  {
    var q := (154.0 - 87.0) / (240.0 - 87.0);
    assert q == 67.0 / 153.0;
    assert TruncRem(q, 6.0) == q;
  }

  lemma NightSwatchHue()
    ensures ColorToHue(Night.color) == Some(230)
  {
    assert ParseHexColor(Night.color) == Some(Rgb(68, 88, 184));
    assert Sector(Rgb(68, 88, 184)) == -20.0 / 116.0 + 4.0;
  }
}
