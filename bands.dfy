/**
 * Stock-level banding of a bunk's fill fraction `current / capacity`, shared by the PDF servers
 * (`get_fill_color` in server.py and server/app.py) and the 3D yard (`getFillColor`,
 * `getFillColorCSS`, `getFillLabel` in pallet-builder.js), and the yard's `darkenColor`.
 * Fractions are exact reals; JavaScript and Python compute them in binary floating point.
 */
module StockBands {

  /** The five stock bands, from emptiest to fullest. */
  datatype Band = Empty | Critical | Low | Ok | Full

  const GREEN: int := 0x22c55e
  const LIGHT_GREEN: int := 0x86efac
  const YELLOW: int := 0xeab308
  const RED: int := 0xef4444
  const GRAY: int := 0x374151

  /** The shared thresholds: `>= 0.8` Full, `>= 0.5` OK, `>= 0.2` Low, `> 0` Critical, else Empty. */
  function BandOf(pct: real): Band
  {
    if pct >= 0.8 then Full
    else if pct >= 0.5 then Ok
    else if pct >= 0.2 then Low
    else if pct > 0.0 then Critical
    else Empty
  }

  function Rank(b: Band): nat
  {
    match b
    case Empty => 0
    case Critical => 1
    case Low => 2
    case Ok => 3
    case Full => 4
  }

  /** More stock never puts a bunk in a lower band. */
  lemma BandMonotone(p: real, q: real)
    requires p <= q
    ensures Rank(BandOf(p)) <= Rank(BandOf(q))
  {
  }

  /** The colour of each band, as a 24-bit RGB number. */
  function BandColor(b: Band): int
  {
    match b
    case Full => GREEN
    case Ok => LIGHT_GREEN
    case Low => YELLOW
    case Critical => RED
    case Empty => GRAY
  }

  /** The label of each band. */
  function BandLabel(b: Band): string
  {
    match b
    case Full => "Full"
    case Ok => "OK"
    case Low => "Low"
    case Critical => "Critical"
    case Empty => "Empty"
  }

  /** `getFillColor(pct)` (pallet-builder.js): the band colour as a number for Three.js. */
  function FillColor(pct: real): (c: int)
    ensures 0 <= c <= 0xffffff
    ensures c == BandColor(BandOf(pct))
  {
    if pct >= 0.8 then 0x22c55e
    else if pct >= 0.5 then 0x86efac
    else if pct >= 0.2 then 0xeab308
    else if pct > 0.0 then 0xef4444
    else 0x374151
  }

  /** `getFillColorCSS(pct)` (pallet-builder.js): the same colour written as a CSS hex string. */
  function FillColorCss(pct: real): (css: string)
    ensures css == CssHex(FillColor(pct))
  {
    CssOfBandColors();
    if pct >= 0.8 then "#22c55e"
    else if pct >= 0.5 then "#86efac"
    else if pct >= 0.2 then "#eab308"
    else if pct > 0.0 then "#ef4444"
    else "#374151"
  }

  /** `getFillLabel(pct)` (pallet-builder.js). */
  function FillLabel(pct: real): (l: string)
    ensures l == BandLabel(BandOf(pct))
  {
    if pct >= 0.8 then "Full"
    else if pct >= 0.5 then "OK"
    else if pct >= 0.2 then "Low"
    else if pct > 0.0 then "Critical"
    else "Empty"
  }

  /** `get_fill_color(pct)`, identical in server.py and server/app.py: the ReportLab colour, given
      by the hex string it is built from. */
  function ServerFillColor(pct: real): (hex: string)
    ensures hex == "#22c55e" <==> pct >= 0.8
    ensures hex == "#86efac" <==> 0.5 <= pct < 0.8
    ensures hex == "#eab308" <==> 0.2 <= pct < 0.5
    ensures hex == "#ef4444" <==> 0.0 < pct < 0.2
    ensures hex == "#374151" <==> pct <= 0.0
    ensures hex == FillColorCss(pct)
  {
    if pct >= 0.8 then "#22c55e"
    else if pct >= 0.5 then "#86efac"
    else if pct >= 0.2 then "#eab308"
    else if pct > 0.0 then "#ef4444"
    else "#374151"
  }

  /** One lower-case hexadecimal digit. */
  function HexDigit(d: int): char
    requires 0 <= d < 16
  {
    "0123456789abcdef"[d]
  }

  /** A 24-bit colour as CSS `#rrggbb`, lower case (`'#' + n.toString(16).padStart(6, '0')`). */
  function CssHex(n: int): (s: string)
    requires 0 <= n <= 0xffffff
    ensures |s| == 7 && s[0] == '#'
  {
    ['#', HexDigit(n / 0x100000 % 16), HexDigit(n / 0x10000 % 16), HexDigit(n / 0x1000 % 16),
     HexDigit(n / 0x100 % 16), HexDigit(n / 0x10 % 16), HexDigit(n % 16)]
  }

  /** `parseInt(c, 16)` for one hexadecimal digit, either case; any other character is 0. */
  function DigitValue(c: char): (d: int)
    ensures 0 <= d < 16
  {
    if '0' <= c <= '9' then c as int - '0' as int
    else if 'a' <= c <= 'f' then c as int - 'a' as int + 10
    else if 'A' <= c <= 'F' then c as int - 'A' as int + 10
    else 0
  }

  /** `parseInt(s, 16)` for a string of hexadecimal digits (the empty string counts as 0). */
  function HexValue(s: string): (v: int)
    ensures 0 <= v
  {
    if s == [] then 0 else HexValue(s[..|s| - 1]) * 16 + DigitValue(s[|s| - 1])
  }

  lemma DigitRoundTrip(d: int)
    requires 0 <= d < 16
    ensures DigitValue(HexDigit(d)) == d
  {
    var digits := "0123456789abcdef";
    assert digits[0] == '0' && digits[1] == '1' && digits[2] == '2' && digits[3] == '3';
    assert digits[4] == '4' && digits[5] == '5' && digits[6] == '6' && digits[7] == '7';
    assert digits[8] == '8' && digits[9] == '9' && digits[10] == 'a' && digits[11] == 'b';
    assert digits[12] == 'c' && digits[13] == 'd' && digits[14] == 'e' && digits[15] == 'f';
  }

  /** Reading one more digit multiplies by 16 and adds it. */
  lemma HexValueSnoc(p: string, c: char)
    ensures HexValue(p + [c]) == HexValue(p) * 16 + DigitValue(c)
  {
    assert (p + [c])[..|p|] == p;
  }

  /** Six digits read back in Horner form. */
  lemma HexValueOfSix(c5: char, c4: char, c3: char, c2: char, c1: char, c0: char)
    ensures HexValue([c5, c4, c3, c2, c1, c0])
      == ((((DigitValue(c5) * 16 + DigitValue(c4)) * 16 + DigitValue(c3)) * 16 + DigitValue(c2)) * 16
          + DigitValue(c1)) * 16 + DigitValue(c0)
  {
    HexValueSnoc([], c5);
    assert [] + [c5] == [c5];
    HexValueSnoc([c5], c4);
    assert [c5] + [c4] == [c5, c4];
    HexValueSnoc([c5, c4], c3);
    assert [c5, c4] + [c3] == [c5, c4, c3];
    HexValueSnoc([c5, c4, c3], c2);
    assert [c5, c4, c3] + [c2] == [c5, c4, c3, c2];
    HexValueSnoc([c5, c4, c3, c2], c1);
    assert [c5, c4, c3, c2] + [c1] == [c5, c4, c3, c2, c1];
    HexValueSnoc([c5, c4, c3, c2, c1], c0);
    assert [c5, c4, c3, c2, c1] + [c0] == [c5, c4, c3, c2, c1, c0];
  }

  /** The CSS spelling reads back as the colour: what the 3-D view does with `parseInt` after
      dropping the `#`. */
  lemma CssHexRoundTrip(n: int)
    requires 0 <= n <= 0xffffff
    ensures HexValue(CssHex(n)[1..]) == n
  {
    var q1 := n / 16;
    var q2 := q1 / 16;
    var q3 := q2 / 16;
    var q4 := q3 / 16;
    var q5 := q4 / 16;
    CssDigits(n, q5, q4 % 16, q3 % 16, q2 % 16, q1 % 16, n % 16);
    DigitRoundTrip(q5);
    DigitRoundTrip(q4 % 16);
    DigitRoundTrip(q3 % 16);
    DigitRoundTrip(q2 % 16);
    DigitRoundTrip(q1 % 16);
    DigitRoundTrip(n % 16);
    var s := CssHex(n);
    assert s[1..] == [s[1], s[2], s[3], s[4], s[5], s[6]];
    HexValueOfSix(s[1], s[2], s[3], s[4], s[5], s[6]);
  }

  /** The CSS strings of the five band colours. */
  lemma CssOfBandColors()
    ensures CssHex(GREEN) == "#22c55e"
    ensures CssHex(LIGHT_GREEN) == "#86efac"
    ensures CssHex(YELLOW) == "#eab308"
    ensures CssHex(RED) == "#ef4444"
    ensures CssHex(GRAY) == "#374151"
  {
    CssDigits(GREEN, 2, 2, 0xc, 5, 5, 0xe);
    CssDigits(LIGHT_GREEN, 8, 6, 0xe, 0xf, 0xa, 0xc);
    CssDigits(YELLOW, 0xe, 0xa, 0xb, 3, 0, 8);
    CssDigits(RED, 0xe, 0xf, 4, 4, 4, 4);
    CssDigits(GRAY, 3, 7, 4, 1, 5, 1);
  }

  lemma CssDigits(n: int, d5: int, d4: int, d3: int, d2: int, d1: int, d0: int)
    requires 0 <= d5 < 16 && 0 <= d4 < 16 && 0 <= d3 < 16 && 0 <= d2 < 16 && 0 <= d1 < 16 && 0 <= d0 < 16
    requires n == ((((d5 * 16 + d4) * 16 + d3) * 16 + d2) * 16 + d1) * 16 + d0
    ensures 0 <= n <= 0xffffff
    ensures CssHex(n) == ['#', HexDigit(d5), HexDigit(d4), HexDigit(d3), HexDigit(d2), HexDigit(d1), HexDigit(d0)]
  {
    var a := d5;
    var b := a * 16 + d4;
    var c := b * 16 + d3;
    var d := c * 16 + d2;
    var e := d * 16 + d1;
    DivModBy(n, 0x10, e, d0);
    DivModBy(n, 0x100, d, d1 * 0x10 + d0);
    DivModBy(n, 0x1000, c, d2 * 0x100 + d1 * 0x10 + d0);
    DivModBy(n, 0x10000, b, d3 * 0x1000 + d2 * 0x100 + d1 * 0x10 + d0);
    DivModBy(n, 0x100000, a, d4 * 0x10000 + d3 * 0x1000 + d2 * 0x100 + d1 * 0x10 + d0);
    DivModBy(e, 16, d, d1);
    DivModBy(d, 16, c, d2);
    DivModBy(c, 16, b, d3);
    DivModBy(b, 16, a, d4);
    DivModBy(a, 16, 0, d5);
  }

  /** Euclidean division is unique. */
  lemma DivModBy(x: int, k: int, q: int, r: int)
    requires 0 < k && 0 <= r < k && x == q * k + r
    ensures x / k == q && x % k == r
  {
    var q' := x / k;
    assert (q - q') * k == x % k - r;
    MulWithinOne(q - q', k);
  }

  lemma MulWithinOne(m: int, k: int)
    requires 0 < k && -k < m * k < k
    ensures m == 0
  {
  }

  /** Colour and label each identify the band: two fractions get the same colour (or the same
      label) exactly when they fall in the same band. */
  lemma ColorAndLabelIdentifyBand(p: real, q: real)
    ensures FillColor(p) == FillColor(q) <==> BandOf(p) == BandOf(q)
    ensures FillLabel(p) == FillLabel(q) <==> BandOf(p) == BandOf(q)
    ensures ServerFillColor(p) == ServerFillColor(q) <==> BandOf(p) == BandOf(q)
  {
    BandLabelsDistinct(BandOf(p), BandOf(q));
  }

  lemma BandLabelsDistinct(a: Band, b: Band)
    ensures BandLabel(a) == BandLabel(b) ==> a == b
  {
    if a != b {
      assert BandLabel(a)[0] != BandLabel(b)[0] || |BandLabel(a)| != |BandLabel(b)|;
    }
  }

  /** The band boundaries of the test suite: 1.0 and 0.8 share a colour, 0.8 and 0.79 do not, and
      1.0, 0.5, 0.1 and 0 give at least three distinct colours. */
  lemma ColorScenario()
    ensures ServerFillColor(1.0) == ServerFillColor(0.8)
    ensures ServerFillColor(0.8) != ServerFillColor(0.79)
    ensures |{ServerFillColor(1.0), ServerFillColor(0.5), ServerFillColor(0.1), ServerFillColor(0.0)}| >= 3
  {
    var s := {ServerFillColor(1.0), ServerFillColor(0.5), ServerFillColor(0.1), ServerFillColor(0.0)};
    assert s == {"#22c55e", "#86efac", "#ef4444", "#374151"};
    assert "#22c55e" != "#86efac" && "#22c55e" != "#ef4444" && "#86efac" != "#ef4444";
    assert {"#22c55e", "#86efac", "#ef4444"} <= s;
    assert |{"#22c55e", "#86efac", "#ef4444"}| == 3;
  }

  // ---------------------------------------------------------------------------------------------
  // From stock counts to a band

  /** The fraction handed to `get_fill_color` by the PDF table: `current / capacity`, or 0 when the
      capacity is not positive (server.py). */
  function Pct(current: int, capacity: int): (pct: real)
    ensures capacity <= 0 ==> pct == 0.0
    ensures capacity > 0 ==> pct * capacity as real == current as real
    ensures capacity > 0 && 0 <= current <= capacity ==> 0.0 <= pct <= 1.0
  {
    if capacity > 0 then current as real / capacity as real else 0.0
  }

  /** The band of a bunk computed on integers, by cross-multiplication. */
  function StockBand(current: int, capacity: int): Band
  {
    if capacity <= 0 then Empty
    else if 5 * current >= 4 * capacity then Full
    else if 2 * current >= capacity then Ok
    else if 5 * current >= capacity then Low
    else if current > 0 then Critical
    else Empty
  }

  lemma DivCompare(cur: real, cap: real, t: real)
    requires cap > 0.0
    ensures cur / cap >= t <==> cur >= t * cap
    ensures cur / cap > t <==> cur > t * cap
  {
    var p := cur / cap;
    assert p * cap == cur;
    if p >= t {
      assert (p - t) * cap >= 0.0;
    }
    if p > t {
      assert (p - t) * cap > 0.0;
    }
    if cur >= t * cap {
      assert (p - t) * cap >= 0.0;
    }
    if cur > t * cap {
      assert (p - t) * cap > 0.0;
    }
  }

  /** The fraction's band agrees with the integer cross-multiplication; in particular a bunk of
      zero capacity falls in the Empty band, and `pct >= 0.8` iff `5 * current >= 4 * capacity`. */
  lemma PctBand(current: int, capacity: int)
    ensures BandOf(Pct(current, capacity)) == StockBand(current, capacity)
  {
    if capacity > 0 {
      var cap := capacity as real;
      var cur := current as real;
      DivCompare(cur, cap, 0.8);
      DivCompare(cur, cap, 0.5);
      DivCompare(cur, cap, 0.2);
      DivCompare(cur, cap, 0.0);
    }
  }

  /** The PDF table colours a bunk of non-positive capacity gray, and an empty bunk too. */
  lemma NoCapacityIsGray(current: int, capacity: int)
    requires capacity <= 0 || current <= 0
    ensures ServerFillColor(Pct(current, capacity)) == "#374151"
  {
    PctBand(current, capacity);
  }

  // ---------------------------------------------------------------------------------------------
  // `darkenColor(hex, factor)`

  function RedOf(hex: int): int { hex / 0x10000 % 0x100 }
  function GreenOf(hex: int): int { hex / 0x100 % 0x100 }
  function BlueOf(hex: int): int { hex % 0x100 }

  /** `Math.floor(channel * factor)`. */
  function Scale(channel: int, factor: real): int
  {
    (channel as real * factor).Floor
  }

  /** `darkenColor(hex, factor)`: every channel scaled by `factor` and rounded down. The shifts and
      masks of the source are written as division and remainder, and the `|` of three
      non-overlapping bytes as their sum. */
  function DarkenColor(hex: int, factor: real): (d: int)
    requires 0 <= hex <= 0xffffff
    requires 0.0 <= factor <= 1.0
    ensures 0 <= d <= 0xffffff
    ensures RedOf(d) == Scale(RedOf(hex), factor) <= RedOf(hex)
    ensures GreenOf(d) == Scale(GreenOf(hex), factor) <= GreenOf(hex)
    ensures BlueOf(d) == Scale(BlueOf(hex), factor) <= BlueOf(hex)
  {
    var r := Scale(RedOf(hex), factor);
    var g := Scale(GreenOf(hex), factor);
    var b := Scale(BlueOf(hex), factor);
    ScaleBounds(RedOf(hex), factor);
    ScaleBounds(GreenOf(hex), factor);
    ScaleBounds(BlueOf(hex), factor);
    ChannelsOfRgb(r, g, b);
    r * 0x10000 + g * 0x100 + b
  }

  lemma ScaleBounds(channel: int, factor: real)
    requires 0 <= channel < 0x100
    requires 0.0 <= factor <= 1.0
    ensures 0 <= Scale(channel, factor) <= channel
  {
    var c := channel as real;
    assert 0.0 <= c * factor by { ProductNonNegative(c, factor); }
    assert c * factor <= c by { ProductNonNegative(c, 1.0 - factor); }
  }

  lemma ProductNonNegative(a: real, b: real)
    requires a >= 0.0 && b >= 0.0
    ensures a * b >= 0.0
  {
  }

  /** Packing three bytes and unpacking them gives them back. */
  lemma ChannelsOfRgb(r: int, g: int, b: int)
    requires 0 <= r < 0x100 && 0 <= g < 0x100 && 0 <= b < 0x100
    ensures var n := r * 0x10000 + g * 0x100 + b;
      0 <= n <= 0xffffff && RedOf(n) == r && GreenOf(n) == g && BlueOf(n) == b
  {
    var n := r * 0x10000 + g * 0x100 + b;
    assert n / 0x10000 == r;
    assert n / 0x100 == r * 0x100 + g;
    assert (r * 0x100 + g) % 0x100 == g;
  }

  /** Unpacking a colour and packing its bytes gives it back. */
  lemma RgbOfChannels(hex: int)
    requires 0 <= hex <= 0xffffff
    ensures RedOf(hex) * 0x10000 + GreenOf(hex) * 0x100 + BlueOf(hex) == hex
  {
    var hi := hex / 0x100;
    assert hex == hi * 0x100 + BlueOf(hex);
    assert hi == hi / 0x100 * 0x100 + GreenOf(hex);
    assert hi / 0x100 == hex / 0x10000;
    assert hex / 0x10000 < 0x100;
  }

  /** A factor of 1 leaves the colour as it is. */
  lemma DarkenByOne(hex: int)
    requires 0 <= hex <= 0xffffff
    ensures DarkenColor(hex, 1.0) == hex
  {
    RgbOfChannels(hex);
    assert Scale(RedOf(hex), 1.0) == RedOf(hex);
    assert Scale(GreenOf(hex), 1.0) == GreenOf(hex);
    assert Scale(BlueOf(hex), 1.0) == BlueOf(hex);
  }
}
