/** Converting a hover swatch such as `#35c8d2` to a hue in whole degrees
    (`colorToHue`): the swatch syntax, the three channels it encodes and the
    max/min hue extraction with JavaScript's rounding and `%`. */
module Color {
  import opened Wrappers

  /** A colour channel, as two hex digits encode it. */
  type Channel = x: int | 0 <= x < 256

  datatype Rgb = Rgb(r: Channel, g: Channel, b: Channel)

  predicate IsHexDigit(c: char) {
    '0' <= c <= '9' || 'a' <= c <= 'f' || 'A' <= c <= 'F'
  }

  predicate AllHexDigits(s: string) {
    forall i :: 0 <= i < |s| ==> IsHexDigit(s[i])
  }

  /** The accepted swatch syntax: an optional `#` followed by exactly six hex
      digits in either case, and nothing else. */
  predicate IsHexColor(s: string) {
    (|s| == 7 && s[0] == '#' && AllHexDigits(s[1..])) || (|s| == 6 && AllHexDigits(s))
  }

  function HexDigitValue(c: char): (v: int)
    requires IsHexDigit(c)
    ensures 0 <= v < 16
  {
    if '0' <= c <= '9' then c as int - '0' as int
    else if 'a' <= c <= 'f' then c as int - 'a' as int + 10
    else c as int - 'A' as int + 10
  }

  /** The lower-case digit for a value below 16, as a formatter writes it. */
  function HexDigitChar(v: int): (c: char)
    requires 0 <= v < 16
    ensures IsHexDigit(c) && HexDigitValue(c) == v
  {
    if v < 10 then ('0' as int + v) as char else ('a' as int + v - 10) as char
  }

  function Lower(c: char): (l: char)
    requires IsHexDigit(c)
    ensures IsHexDigit(l) && HexDigitValue(l) == HexDigitValue(c) && !('A' <= l <= 'F')
  {
    if 'A' <= c <= 'F' then (c as int - 'A' as int + 'a' as int) as char else c
  }

  function ChannelAt(d: string, i: nat): (v: Channel)
    requires i + 1 < |d| && IsHexDigit(d[i]) && IsHexDigit(d[i + 1])
  {
    16 * HexDigitValue(d[i]) + HexDigitValue(d[i + 1])
  }

  /** The regular-expression match of the swatch: the three channels, or
      nothing when the swatch does not have the accepted syntax. */
  function ParseHexColor(s: string): (c: Option<Rgb>)
    ensures c.Some? <==> IsHexColor(s)
  {
    var d := if |s| > 0 && s[0] == '#' then s[1..] else s;
    if |d| == 6 && AllHexDigits(d) then
      Some(Rgb(ChannelAt(d, 0), ChannelAt(d, 2), ChannelAt(d, 4)))
    else
      None
  }

  /** The canonical lower-case `#rrggbb` spelling of a colour. */
  function FormatHexColor(c: Rgb): (s: string)
    ensures |s| == 7 && s[0] == '#'
  {
    ['#',
     HexDigitChar(c.r / 16), HexDigitChar(c.r % 16),
     HexDigitChar(c.g / 16), HexDigitChar(c.g % 16),
     HexDigitChar(c.b / 16), HexDigitChar(c.b % 16)]
  }

  /** Parsing a formatted colour gives the colour back. */
  lemma ParseFormatRoundTrip(c: Rgb)
    ensures ParseHexColor(FormatHexColor(c)) == Some(c)
  {
    var s := FormatHexColor(c);
    assert AllHexDigits(s[1..]);
  }

  /** Formatting a parsed swatch gives the swatch back, with a `#` added when
      it was omitted and upper-case digits lowered. */
  lemma FormatParseRoundTrip(s: string)
    requires IsHexColor(s)
    ensures var d := if s[0] == '#' then s[1..] else s;
            var f := FormatHexColor(ParseHexColor(s).value);
            forall i :: 0 <= i < 6 ==> f[i + 1] == Lower(d[i])
  {
    var d := if s[0] == '#' then s[1..] else s;
    ParsedChannels(s, d);
    FormatChannels(d);
  }

  /** A well-formed swatch parses to the channels its digit pairs encode. */
  lemma ParsedChannels(s: string, d: string)
    requires IsHexColor(s) && d == (if s[0] == '#' then s[1..] else s)
    ensures |d| == 6 && AllHexDigits(d)
    ensures ParseHexColor(s) == Some(Rgb(ChannelAt(d, 0), ChannelAt(d, 2), ChannelAt(d, 4)))
  {
  }

  /** Formatting the channels of six digits writes those digits, lowered. */
  lemma FormatChannels(d: string)
    requires |d| == 6 && AllHexDigits(d)
    ensures FormatHexColor(Rgb(ChannelAt(d, 0), ChannelAt(d, 2), ChannelAt(d, 4))) ==
            ['#', Lower(d[0]), Lower(d[1]), Lower(d[2]), Lower(d[3]), Lower(d[4]), Lower(d[5])]
  {
    ChannelDigits(d, 0);
    ChannelDigits(d, 2);
    ChannelDigits(d, 4);
  }

  /** The two digits written for a parsed channel are the lowered digits it was read from. */
  lemma ChannelDigits(d: string, i: nat)
    requires i + 1 < |d| && IsHexDigit(d[i]) && IsHexDigit(d[i + 1])
    ensures HexDigitChar(ChannelAt(d, i) / 16) == Lower(d[i])
    ensures HexDigitChar(ChannelAt(d, i) % 16) == Lower(d[i + 1])
  {
    var hi, lo := HexDigitValue(d[i]), HexDigitValue(d[i + 1]);
    assert ChannelAt(d, i) / 16 == hi && ChannelAt(d, i) % 16 == lo;
    LowerDigitUnique(HexDigitChar(hi), d[i]);
    LowerDigitUnique(HexDigitChar(lo), d[i + 1]);
  }

  /** A lower-case digit is determined by its value. */
  lemma LowerDigitUnique(a: char, b: char)
    requires IsHexDigit(a) && IsHexDigit(b) && !('A' <= a <= 'F')
    requires HexDigitValue(a) == HexDigitValue(b)
    ensures a == Lower(b)
  {
  }

  /** JavaScript's `Math.round`: the nearest integer, halves rounded upward. */
  function Round(x: real): (n: int)
    ensures n as real - 0.5 <= x < n as real + 0.5
  {
    (x + 0.5).Floor
  }

  /** Truncation toward zero. */
  function Trunc(q: real): (t: int)
    ensures 0.0 <= q ==> 0.0 <= q - t as real < 1.0
    ensures q < 0.0 ==> -1.0 < q - t as real <= 0.0
    ensures -1.0 < q < 1.0 ==> t == 0
  {
    if q >= 0.0 then q.Floor else -((-q).Floor)
  }

  /** JavaScript's `%` on numbers: the remainder of truncated division, which
      keeps the sign of the dividend. */
  function TruncRem(x: real, m: real): (r: real)
    requires m > 0.0
    ensures 0.0 <= x ==> 0.0 <= r < m
    ensures x < 0.0 ==> -m < r <= 0.0
    ensures -m < x < m ==> r == x
    ensures (x - r) / m == ((x - r) / m).Floor as real
  {
    var q := x / m;
    var r := x - m * Trunc(q) as real;
    TruncRemBounds(x, m, q, r);
    r
  }

  lemma TruncRemBounds(x: real, m: real, q: real, r: real)
    requires m > 0.0 && x == m * q && r == x - m * Trunc(q) as real
    ensures 0.0 <= x ==> 0.0 <= r < m
    ensures x < 0.0 ==> -m < r <= 0.0
    ensures -m < x < m ==> r == x
    ensures (x - r) / m == Trunc(q) as real
  {
    ScaledBack(m, Trunc(q) as real, x - r);
    var f := q - Trunc(q) as real;
    assert r == m * f;
    SignOfScaled(m, q, x);
    SignOfScaled(m, f, r);
    if -m < x < m {
      SmallQuotient(m, q, x);
    }
  }

  /** Dividing `m * t` by `m` gives `t` back. */
  lemma ScaledBack(m: real, t: real, p: real)
    requires m > 0.0 && p == m * t
    ensures p / m == t
  {
  }

  lemma SmallQuotient(m: real, q: real, x: real)
    requires m > 0.0 && x == m * q && -m < x < m
    ensures Trunc(q) == 0
  {
    BelowScale(m, q, x);
    BelowScale(m, -q, -x);
  }

  lemma SignOfScaled(m: real, v: real, p: real)
    requires m > 0.0 && p == m * v
    ensures 0.0 <= v <==> 0.0 <= p
    ensures v <= 0.0 <==> p <= 0.0
    ensures 0.0 <= v < 1.0 ==> p < m
    ensures -1.0 < v <= 0.0 ==> -m < p
  {
    if 0.0 <= v { assert 0.0 <= m * v; }
    if v < 0.0 { assert 0.0 < m * -v; }
    if v <= 0.0 { assert 0.0 <= m * -v; }
    if 0.0 < v { assert 0.0 < m * v; }
    BelowScale(m, v, p);
    BelowScale(m, -v, -p);
  }

  lemma BelowScale(m: real, v: real, p: real)
    requires m > 0.0 && p == m * v
    ensures v < 1.0 <==> p < m
  {
    var w := 1.0 - v;
    assert m * w == m - p;
    if v < 1.0 {
      assert m * w > 0.0;
    } else {
      assert m * -w >= 0.0;
    }
  }

  function Max3(a: real, b: real, c: real): real {
    if a >= b && a >= c then a else if b >= c then b else c
  }

  function Min3(a: real, b: real, c: real): real {
    if a <= b && a <= c then a else if b <= c then b else c
  }

  /** The sector position of the hue in sixths of a turn, before scaling to
      degrees: the source's `h` ahead of `Math.round(h * 60)`. It lies in
      [-1, 1] when red is the largest channel, [1, 3] when green is and [3, 5]
      when blue is. The division of every channel by 255 cancels in each
      ratio and is left out. */
  function Sector(c: Rgb): (s: real)
    ensures -1.0 <= s <= 5.0
    ensures DominantSector(c) == 0 ==> -1.0 <= s <= 1.0
    ensures DominantSector(c) == 1 ==> 1.0 <= s <= 3.0
    ensures DominantSector(c) == 2 ==> 3.0 <= s <= 5.0
  {
    var r, g, b := c.r as real, c.g as real, c.b as real;
    var mx, mn := Max3(r, g, b), Min3(r, g, b);
    var d := mx - mn;
    if d == 0.0 then 0.0
    else if mx == r then (QuotientBounds01(g - b, d); TruncRem((g - b) / d, 6.0))
    else if mx == g then (QuotientBounds01(b - r, d); (b - r) / d + 2.0)
    else (QuotientBounds01(r - g, d); (r - g) / d + 4.0)
  }

  /** The hue of a colour in whole degrees, in [0, 360); a grey has hue 0. */
  function Hue(c: Rgb): (h: int)
    ensures 0 <= h < 360
    ensures c.r == c.g == c.b ==> h == 0
  {
    var deg := Round(Sector(c) * 60.0);
    if deg < 0 then deg + 360 else deg
  }

  lemma QuotientBounds01(x: real, d: real)
    requires d > 0.0 && -d <= x <= d
    ensures -1.0 <= x / d <= 1.0
  {
  }

  /** Which channel the hue extraction treats as the largest: red wins ties
      with both others, green wins a tie with blue. */
  function DominantSector(c: Rgb): nat {
    if c.r >= c.g && c.r >= c.b then 0 else if c.g >= c.b then 1 else 2
  }

  /** The hue lands in the third of the circle that belongs to the largest
      channel: red-dominated colours within 60 degrees of 0, green-dominated
      ones in [60, 180], blue-dominated ones in [180, 300]. */
  lemma HueFollowsDominantChannel(c: Rgb)
    ensures DominantSector(c) == 0 ==> Hue(c) <= 60 || 300 <= Hue(c)
    ensures DominantSector(c) == 1 ==> 60 <= Hue(c) <= 180
    ensures DominantSector(c) == 2 ==> 180 <= Hue(c) <= 300
  {
  }

  /** Adding the same amount to every channel (lightening or darkening a
      colour without changing its tint) leaves the hue unchanged. */
  lemma HueShiftInvariant(c: Rgb, k: int)
    requires 0 <= c.r + k < 256 && 0 <= c.g + k < 256 && 0 <= c.b + k < 256
    ensures Hue(Rgb(c.r + k, c.g + k, c.b + k)) == Hue(c)
  {
    var c' := Rgb(c.r + k, c.g + k, c.b + k);
    assert Sector(c') == Sector(c);
  }

  /** `colorToHue`: nothing for a swatch without the accepted syntax,
      otherwise the hue of its colour, an integer in [0, 360). */
  function ColorToHue(s: string): (h: Option<int>)
    ensures h.None? <==> !IsHexColor(s)
    ensures h.Some? ==> 0 <= h.value < 360
  {
    match ParseHexColor(s)
    case None => None
    case Some(c) => Some(Hue(c))
  }

  /** A grey swatch (all three channels equal) has hue 0. */
  lemma GreySwatchHasHueZero(s: string)
    requires IsHexColor(s)
    requires var c := ParseHexColor(s).value; c.r == c.g == c.b
    ensures ColorToHue(s) == Some(0)
  {
  }

  /** The three primary colours sit at their textbook angles. */
  lemma PrimaryHues()
    ensures ColorToHue("#ff0000") == Some(0)
    ensures ColorToHue("00ff00") == Some(120)
    ensures ColorToHue("#0000ff") == Some(240)
  {
    RedHue();
    GreenHue();
    BlueHue();
  }

  /** So do the three secondary colours, whatever the case of the digits. */
  lemma SecondaryHues()
    ensures ColorToHue("#ffff00") == Some(60)
    ensures ColorToHue("#00FFFF") == Some(180)
    ensures ColorToHue("#ff00ff") == Some(300)
  {
    YellowHue();
    CyanHue();
    MagentaHue();
  }

  lemma RedHue()
    ensures ColorToHue("#ff0000") == Some(0)
  {
    assert ParseHexColor("#ff0000") == Some(Rgb(255, 0, 0));
  }

  lemma GreenHue()
    ensures ColorToHue("00ff00") == Some(120)
  {
    assert ParseHexColor("00ff00") == Some(Rgb(0, 255, 0));
  }

  lemma BlueHue()
    ensures ColorToHue("#0000ff") == Some(240)
  {
    assert ParseHexColor("#0000ff") == Some(Rgb(0, 0, 255));
  }

  lemma YellowHue()
    ensures ColorToHue("#ffff00") == Some(60)
  {
    assert ParseHexColor("#ffff00") == Some(Rgb(255, 255, 0));
  }

  lemma CyanHue()
    ensures ColorToHue("#00FFFF") == Some(180)
  {
    assert ParseHexColor("#00FFFF") == Some(Rgb(0, 255, 255));
  }

  lemma MagentaHue()
    ensures ColorToHue("#ff00ff") == Some(300)
  {
    assert ParseHexColor("#ff00ff") == Some(Rgb(255, 0, 255));
  }
}
