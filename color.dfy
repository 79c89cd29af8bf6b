/**
 * Colour conversions and hue bucketing of src/lib/processing/Color.ts; the
 * `rgb2hsl` of src/processing/Color.ts is the same expression and shares
 * `Rgb2Hsl`. Channels are reals (0..255 in practice); IEEE rounding is ignored.
 */
module Color {
  import opened Wrappers
  import Js

  /** A colour channel as read from 8-bit pixel data. */
  type Byte = x: int | 0 <= x < 256

  datatype Hsl = Hsl(h: real, s: real, l: real)
  datatype Rgb = Rgb(r: int, g: int, b: int)

  function Max3(a: real, b: real, c: real): (m: real)
    ensures m == a || m == b || m == c
    ensures m >= a && m >= b && m >= c
  {
    if a >= b && a >= c then a else if b >= c then b else c
  }

  function Min3(a: real, b: real, c: real): (m: real)
    ensures m == a || m == b || m == c
    ensures m <= a && m <= b && m <= c
  {
    if a <= b && a <= c then a else if b <= c then b else c
  }

  /** The hue before the final `/ 6`: the `switch (max)` picks the first channel equal to max. */
  function HueSixths(r: real, g: real, b: real): (x: real)
    requires Max3(r, g, b) != Min3(r, g, b)
    ensures 0.0 <= x < 6.0
  {
    var max, min := Max3(r, g, b), Min3(r, g, b);
    var d := max - min;
    if max == r then
      (if g < b then
        assert -d <= g - b < 0.0;
        UnitQuotient(g - b, d);
        (g - b) / d + 6.0
      else
        assert 0.0 <= g - b <= d;
        UnitQuotient(g - b, d);
        (g - b) / d)
    else if max == g then
      assert -d <= b - r <= d;
      UnitQuotient(b - r, d);
      (b - r) / d + 2.0
    else
      assert max == b;
      assert -d <= r - g <= d;
      UnitQuotient(r - g, d);
      (r - g) / d + 4.0
  }

  lemma UnitQuotient(a: real, d: real)
    requires d > 0.0 && -d <= a <= d
    ensures -1.0 <= a / d <= 1.0
    ensures a < 0.0 ==> a / d < 0.0
    ensures a >= 0.0 ==> a / d >= 0.0
  {
    var q := a / d;
    assert q * d == a;
    MulMono(q, 1.0, d);
    MulMono(-1.0, q, d);
    MulMono(q, 0.0, d);
  }

  lemma MulMono(x: real, y: real, d: real)
    requires d > 0.0
    ensures x <= y <==> x * d <= y * d
  {
  }

  /**
   * `rgb2hsl(c)`: lightness is the mean of the largest and smallest channel
   * fraction; an achromatic colour has hue and saturation 0; the hue is a
   * fraction of a turn in [0, 1).
   */
  function Rgb2Hsl(cr: Byte, cg: Byte, cb: Byte): (hsl: Hsl)
    ensures hsl.l == (Max3(cr as real, cg as real, cb as real) + Min3(cr as real, cg as real, cb as real)) / 255.0 / 2.0
    ensures cr == cg == cb ==> hsl.h == 0.0 && hsl.s == 0.0
    ensures 0.0 <= hsl.h < 1.0
  {
    var r, g, b := cr as real / 255.0, cg as real / 255.0, cb as real / 255.0;
    assert 0.0 <= Min3(r, g, b);
    var max, min := Max3(r, g, b), Min3(r, g, b);
    var l := (max + min) / 2.0;
    if max == min then Hsl(0.0, 0.0, l)
    else
      var d := max - min;
      var s := if l > 0.5 then d / (2.0 - max - min) else d / (max + min);
      Hsl(HueSixths(r, g, b) / 6.0, s, l)
  }

  /** `hue2rgb(p, q, t)`: t is wrapped once into [0, 1], then the piecewise ramp applies. */
  function Hue2Rgb(p: real, q: real, t0: real): (r: real)
    ensures -1.0 <= t0 <= 2.0 && p <= q ==> p <= r <= q
  {
    var t1 := if t0 < 0.0 then t0 + 1.0 else t0;
    var t := if t1 > 1.0 then t1 - 1.0 else t1;
    if t < 1.0 / 6.0 then Ramp(p, q, 6.0 * t)
    else if t < 1.0 / 2.0 then q
    else if t < 2.0 / 3.0 then Ramp(p, q, (2.0 / 3.0 - t) * 6.0)
    else p
  }

  /** `p + (q - p) * k`: the linear ramp from p (k = 0) to q (k = 1). */
  function Ramp(p: real, q: real, k: real): (r: real)
    ensures p <= q && 0.0 <= k <= 1.0 ==> p <= r <= q
  {
    var d := q - p;
    FractionOf(d, k);
    p + d * k
  }

  /** A fraction in [0, 1] of a non-negative length lies between 0 and that length. */
  lemma FractionOf(d: real, k: real)
    ensures d >= 0.0 && 0.0 <= k <= 1.0 ==> 0.0 <= d * k <= d
  {
    if d > 0.0 && 0.0 <= k <= 1.0 {
      MulMono(k, 1.0, d);
      MulMono(0.0, k, d);
    }
  }

  /** `hslToRgb([h, s, l])`, each channel rounded with `Math.round(x * 255)`. */
  function HslToRgb(c: Hsl): (rgb: Rgb)
    ensures c.s == 0.0 ==> rgb.r == rgb.g == rgb.b == Js.RoundReal(c.l * 255.0)
  {
    if c.s == 0.0 then
      var v := Js.RoundReal(c.l * 255.0);
      Rgb(v, v, v)
    else
      var q := QOf(c.l, c.s);
      var p := 2.0 * c.l - q;
      Rgb(ChannelOf(p, q, c.h + 1.0 / 3.0), ChannelOf(p, q, c.h), ChannelOf(p, q, c.h - 1.0 / 3.0))
  }

  /** The `q` of `hslToRgb`. */
  function QOf(l: real, s: real): real {
    if l < 0.5 then l * (1.0 + s) else l + s - l * s
  }

  /** `Math.round(hue2rgb(p, q, t) * 255)`. */
  function ChannelOf(p: real, q: real, t: real): int {
    Js.RoundReal(Hue2Rgb(p, q, t) * 255.0)
  }

  /** A `{ channel, ranges }` entry: the channel owns every hue in one of its inclusive ranges. */
  datatype HueToChannel<K> = HueToChannel(channel: K, ranges: seq<(real, real)>)

  datatype Channel = Red | Green | Blue

  /** `HUE_RANGE_RGB`. */
  const HueRangeRgb: seq<HueToChannel<Channel>> := [
    HueToChannel(Red, [(0.0 / 360.0, 50.0 / 360.0), (280.0 / 360.0, 360.0 / 360.0)]),
    HueToChannel(Green, [(50.0 / 360.0, 180.0 / 360.0)]),
    HueToChannel(Blue, [(180.0 / 360.0, 280.0 / 360.0)])
  ]

  /** `r.ranges.some(i => value >= i[0] && value <= i[1])`. */
  predicate InRanges(value: real, ranges: seq<(real, real)>) {
    exists i :: 0 <= i < |ranges| && ranges[i].0 <= value <= ranges[i].1
  }

  /** Entry k is the first of `entries` whose ranges contain `value`. */
  predicate FirstMatch<K>(value: real, entries: seq<HueToChannel<K>>, k: int) {
    0 <= k < |entries| && InRanges(value, entries[k].ranges)
    && forall j :: 0 <= j < k ==> !InRanges(value, entries[j].ranges)
  }

  /** `channelFromHue(value, ranges)`: the channel of the first entry containing `value`. */
  function ChannelFromHue<K(==)>(value: real, entries: seq<HueToChannel<K>>): (r: Option<K>)
    ensures r.None? <==> forall k :: 0 <= k < |entries| ==> !InRanges(value, entries[k].ranges)
    ensures r.Some? ==> exists k :: FirstMatch(value, entries, k) && r.value == entries[k].channel
  {
    if |entries| == 0 then None
    else if InRanges(value, entries[0].ranges) then Some(entries[0].channel)
    else
      var r := ChannelFromHue(value, entries[1..]);
      assert forall k :: 1 <= k < |entries| ==> entries[k] == entries[1..][k - 1];
      if r.Some? then
        var k :| FirstMatch(value, entries[1..], k) && r.value == entries[1..][k].channel;
        assert forall j :: 0 <= j < k + 1 ==> !InRanges(value, entries[j].ranges) by {
          forall j | 0 <= j < k + 1
            ensures !InRanges(value, entries[j].ranges)
          {
            if j > 0 {
              assert entries[j] == entries[1..][j - 1];
            }
          }
        }
        assert FirstMatch(value, entries, k + 1);
        r
      else
        r
  }

  // ---- properties ----

  /** For channels in [0, 255] the saturation lies in [0, 1] (and the lightness too). */
  lemma Rgb2HslRanges(cr: Byte, cg: Byte, cb: Byte)
    ensures 0.0 <= Rgb2Hsl(cr, cg, cb).s <= 1.0
    ensures 0.0 <= Rgb2Hsl(cr, cg, cb).l <= 1.0
  {
    var r, g, b := cr as real / 255.0, cg as real / 255.0, cb as real / 255.0;
    var max, min := Max3(r, g, b), Min3(r, g, b);
    assert 0.0 <= min <= max <= 1.0;
    if max != min {
      var d := max - min;
      var l := (max + min) / 2.0;
      if l > 0.5 {
        UnitQuotient(d, 2.0 - max - min);
      } else {
        UnitQuotient(d, max + min);
      }
    }
  }

  /** A grey `(c, c, c)` with c in 0..255 goes to HSL `(0, 0, c/255)` and back to itself. */
  lemma GreyRoundTrip(c: Byte)
    ensures Rgb2Hsl(c, c, c) == Hsl(0.0, 0.0, c as real / 255.0)
    ensures HslToRgb(Rgb2Hsl(c, c, c)) == Rgb(c, c, c)
  {
    var x := c as real;
    assert Max3(x / 255.0, x / 255.0, x / 255.0) == x / 255.0;
    assert (x / 255.0) * 255.0 == x;
  }

  /** After the single wrap, `hue2rgb` lies between p and q for any t in [-1, 2]. */
  lemma Hue2RgbBetween(p: real, q: real, t0: real)
    requires -1.0 <= t0 <= 2.0
    requires p <= q
    ensures p <= Hue2Rgb(p, q, t0) <= q
  {
    var t1 := if t0 < 0.0 then t0 + 1.0 else t0;
    var t := if t1 > 1.0 then t1 - 1.0 else t1;
    assert 0.0 <= t <= 1.0;
    if t < 1.0 / 6.0 {
      var k := 6.0 * t;
      assert 0.0 <= k <= 1.0;
      assert Hue2Rgb(p, q, t0) == Ramp(p, q, k);
      Interpolate(p, q, k);
    } else if 1.0 / 2.0 <= t < 2.0 / 3.0 {
      var k := (2.0 / 3.0 - t) * 6.0;
      assert 0.0 < k <= 1.0;
      assert Hue2Rgb(p, q, t0) == Ramp(p, q, k);
      Interpolate(p, q, k);
    } else if t < 1.0 / 2.0 {
      assert Hue2Rgb(p, q, t0) == q;
    } else {
      assert Hue2Rgb(p, q, t0) == p;
    }
  }

  lemma Interpolate(p: real, q: real, k: real)
    requires p <= q && 0.0 <= k <= 1.0
    ensures p <= Ramp(p, q, k) <= q
  {
    var d := q - p;
    if d > 0.0 {
      MulMono(k, 1.0, d);
      MulMono(0.0, k, d);
      assert 0.0 <= k * d <= d;
      assert Ramp(p, q, k) == p + k * d;
    }
  }

  /** For h in [0, 1] and s, l in [0, 1], every channel of `hslToRgb` lies in 0..255. */
  lemma HslToRgbRange(c: Hsl)
    requires 0.0 <= c.h <= 1.0 && 0.0 <= c.s <= 1.0 && 0.0 <= c.l <= 1.0
    ensures var rgb := HslToRgb(c);
      0 <= rgb.r <= 255 && 0 <= rgb.g <= 255 && 0 <= rgb.b <= 255
  {
    if c.s != 0.0 {
      var q := QOf(c.l, c.s);
      var p := 2.0 * c.l - q;
      PQBounds(c.l, c.s);
      ChannelRange(p, q, c.h + 1.0 / 3.0);
      ChannelRange(p, q, c.h);
      ChannelRange(p, q, c.h - 1.0 / 3.0);
    } else {
      RoundUnit(c.l);
    }
  }

  lemma ChannelRange(p: real, q: real, t: real)
    requires 0.0 <= p <= q <= 1.0 && -1.0 <= t <= 2.0
    ensures 0 <= ChannelOf(p, q, t) <= 255
  {
    Hue2RgbBetween(p, q, t);
    RoundUnit(Hue2Rgb(p, q, t));
  }

  /** The `p` and `q` of `hslToRgb` satisfy 0 <= p <= q <= 1. */
  lemma PQBounds(l: real, s: real)
    requires 0.0 <= s <= 1.0 && 0.0 <= l <= 1.0
    ensures 0.0 <= 2.0 * l - QOf(l, s) <= QOf(l, s) <= 1.0
  {
    if l < 0.5 {
      assert QOf(l, s) == l + Ramp(0.0, l, s);
      Interpolate(0.0, l, s);
    } else {
      assert QOf(l, s) == l + Ramp(0.0, 1.0 - l, s);
      Interpolate(0.0, 1.0 - l, s);
    }
  }

  lemma RoundUnit(x: real)
    requires 0.0 <= x <= 1.0
    ensures 0 <= Js.RoundReal(x * 255.0) <= 255
  {
    assert 0.0 <= x * 255.0 <= 255.0;
  }

  /** Every hue in [0, 1] falls in some range of `HUE_RANGE_RGB`. */
  lemma HueRangeRgbCovers(h: real)
    requires 0.0 <= h <= 1.0
    ensures ChannelFromHue(h, HueRangeRgb).Some?
  {
    if h <= 50.0 / 360.0 {
      assert HueRangeRgb[0].ranges[0].0 <= h <= HueRangeRgb[0].ranges[0].1;
    } else if h <= 180.0 / 360.0 {
      assert HueRangeRgb[1].ranges[0].0 <= h <= HueRangeRgb[1].ranges[0].1;
    } else if h <= 280.0 / 360.0 {
      assert HueRangeRgb[2].ranges[0].0 <= h <= HueRangeRgb[2].ranges[0].1;
    } else {
      assert HueRangeRgb[0].ranges[1].0 <= h <= HueRangeRgb[0].ranges[1].1;
    }
  }

  /** The shared boundary 50/360 belongs to red and green; red, listed first, wins. */
  lemma HueBoundaryIsRed()
    ensures ChannelFromHue(50.0 / 360.0, HueRangeRgb) == Some(Red)
  {
    assert HueRangeRgb[0].ranges[0].0 <= 50.0 / 360.0 <= HueRangeRgb[0].ranges[0].1;
  }
}
