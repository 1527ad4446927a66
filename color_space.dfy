/**
 * RGB colours, their HSL form, and the weighted HSL distance that the
 * palette matcher ranks shades by (rgbToHsl and calcularDistanciaCores).
 *
 * HSL is computed over exact reals. The distance is kept SQUARED: the
 * source takes a square root at the end, which is monotone and so changes
 * neither comparisons nor the arg-min.
 */
module ColorSpace {
  import opened Numeric

  /** An RGB colour with integer channels (RGBColor). */
  datatype Rgb = Rgb(r: int, g: int, b: int)

  predicate InRange(c: Rgb) {
    0 <= c.r <= 255 && 0 <= c.g <= 255 && 0 <= c.b <= 255
  }

  /**
   * A saturation value. For channels outside [0, 255] the source can divide
   * a positive difference by zero, which JavaScript turns into +Infinity.
   */
  datatype Sat = Fin(v: real) | Infinite

  /** Hue as a fraction of a turn, saturation and lightness as fractions. */
  datatype Hsl = Hsl(h: real, s: Sat, l: real)

  function Max3(a: real, b: real, c: real): (m: real)
    ensures (m == a || m == b || m == c) && a <= m && b <= m && c <= m
  {
    if a >= b && a >= c then a else if b >= c then b else c
  }

  function Min3(a: real, b: real, c: real): (m: real)
    ensures (m == a || m == b || m == c) && m <= a && m <= b && m <= c
  {
    if a <= b && a <= c then a else if b <= c then b else c
  }

  function Abs(x: real): (r: real)
    ensures r >= 0.0 && (r == x || r == -x)
  {
    if x < 0.0 then -x else x
  }

  /** A quotient whose numerator is bounded by its positive denominator. */
  lemma QuotientBounds(a: real, d: real)
    requires d > 0.0 && -d <= a <= d
    ensures -1.0 <= a / d <= 1.0
    ensures a < 0.0 ==> a / d < 0.0
    ensures a >= 0.0 ==> a / d >= 0.0
    ensures a > 0.0 ==> a / d > 0.0
  {
    var q := a / d;
    assert q * d == a;
    assert (q - 1.0) * d <= 0.0 && (q + 1.0) * d >= 0.0;
  }

  /**
   * The max/min HSL derivation of rgbToHsl. The hue branch follows the
   * source's `switch (max)`: red is tested first, then green, then blue.
   */
  function RgbToHsl(c: Rgb): (x: Hsl)
    ensures 0.0 <= x.h < 1.0
  {
    var r, g, b := c.r as real / 255.0, c.g as real / 255.0, c.b as real / 255.0;
    var max, min := Max3(r, g, b), Min3(r, g, b);
    var l := (max + min) / 2.0;
    if max == min then Hsl(0.0, Fin(0.0), l)
    else
      var d := max - min;
      var s :=
        if l > 0.5 then
          (if 2.0 - max - min == 0.0 then Infinite else Fin(d / (2.0 - max - min)))
        else
          (if max + min == 0.0 then Infinite else Fin(d / (max + min)));
      var h :=
        if max == r then
          (QuotientBounds(g - b, d);
           (g - b) / d + (if g < b then 6.0 else 0.0))
        else if max == g then
          (QuotientBounds(b - r, d);
           (b - r) / d + 2.0)
        else
          (QuotientBounds(r - g, d);
           (r - g) / d + 4.0);
      Hsl(h / 6.0, s, l)
  }

  /**
   * The largest plus the smallest channel, in 0..510 for in-range colours:
   * the integer form of Max3 + Min3, kept so that comparisons of catalogue
   * colours stay integer arithmetic.
   */
  function ChannelSpan(c: Rgb): int {
    (if c.r >= c.g && c.r >= c.b then c.r else if c.g >= c.b then c.g else c.b) +
    (if c.r <= c.g && c.r <= c.b then c.r else if c.g <= c.b then c.g else c.b)
  }

  /** Lightness is (max + min) / 2 of the channels scaled to [0, 1]. */
  lemma LightnessOfChannels(c: Rgb)
    ensures RgbToHsl(c).l == ChannelSpan(c) as real / 510.0
  {
  }

  /**
   * For channels in [0, 255], lightness and saturation are fractions in
   * [0, 1], and saturation is never infinite.
   */
  lemma HslInRange(c: Rgb)
    requires InRange(c)
    ensures RgbToHsl(c).s.Fin?
    ensures 0.0 <= RgbToHsl(c).s.v <= 1.0
    ensures 0.0 <= RgbToHsl(c).l <= 1.0
  {
    var r, g, b := c.r as real / 255.0, c.g as real / 255.0, c.b as real / 255.0;
    var max, min := Max3(r, g, b), Min3(r, g, b);
    if max != min {
      var d := max - min;
      if (max + min) / 2.0 > 0.5 {
        QuotientBounds(d, 2.0 - max - min);
      } else {
        QuotientBounds(d, max + min);
      }
    }
  }

  /**
   * An achromatic colour (R = G = B) has hue 0 and saturation 0; for
   * channels in [0, 255] saturation 0 also means the colour is achromatic.
   */
  lemma AchromaticIff(c: Rgb)
    ensures c.r == c.g == c.b ==> RgbToHsl(c).h == 0.0 && RgbToHsl(c).s == Fin(0.0)
    ensures InRange(c) ==> (RgbToHsl(c).s == Fin(0.0) <==> c.r == c.g == c.b)
  {
    var r, g, b := c.r as real / 255.0, c.g as real / 255.0, c.b as real / 255.0;
    var max, min := Max3(r, g, b), Min3(r, g, b);
    if InRange(c) && max != min {
      var d := max - min;
      if (max + min) / 2.0 > 0.5 {
        QuotientBounds(d, 2.0 - max - min);
      } else {
        QuotientBounds(d, max + min);
      }
    }
  }

  /**
   * The circular hue difference of calcularDistanciaCores in degrees:
   * the shorter way round the colour wheel.
   */
  function HueDelta(h1: real, h2: real): (x: real)
    ensures 0.0 <= h1 < 1.0 && 0.0 <= h2 < 1.0 ==> 0.0 <= x <= 180.0
    ensures 0.0 <= h1 < 1.0 && 0.0 <= h2 < 1.0 ==> (x == 0.0 <==> h1 == h2)
  {
    var a := Abs(h1 - h2);
    (if a <= 1.0 - a then a else 1.0 - a) * 360.0
  }

  /** A well-formed HSL triple as RgbToHsl produces: hue in [0, 1). */
  predicate HueInTurn(x: Hsl) {
    0.0 <= x.h < 1.0
  }

  /**
   * The square of calcularDistanciaCores on two HSL triples: hue difference
   * weighted 2.0, saturation difference in percentage points weighted 1.0,
   * lightness difference in percentage points weighted 1.5. An infinite
   * saturation on one side makes the distance +Infinity; on both sides it
   * is Infinity - Infinity, which is NaN.
   */
  function HslDistanceSq(x1: Hsl, x2: Hsl): (d: Number)
    ensures d.Finite? ==> d.v >= 0.0
    ensures d.NotANumber? <==> x1.s.Infinite? && x2.s.Infinite?
    ensures d.Finite? <==> x1.s.Fin? && x2.s.Fin?
  {
    var dH := HueDelta(x1.h, x2.h);
    var dL := Abs(x1.l - x2.l) * 100.0;
    match (x1.s, x2.s)
    case (Fin(s1), Fin(s2)) =>
      var dS := Abs(s1 - s2) * 100.0;
      Finite((dH * 2.0) * (dH * 2.0) + (dS * 1.0) * (dS * 1.0) + (dL * 1.5) * (dL * 1.5))
    case (Infinite, Infinite) => NotANumber
    case _ => PosInf
  }

  /** calcularDistanciaCores, squared: both colours go through rgbToHsl first. */
  function DistanceSq(c1: Rgb, c2: Rgb): (d: Number)
    ensures d.Finite? ==> d.v >= 0.0
    ensures d.NotANumber? <==> RgbToHsl(c1).s.Infinite? && RgbToHsl(c2).s.Infinite?
  {
    HslDistanceSq(RgbToHsl(c1), RgbToHsl(c2))
  }

  /** The distance does not depend on the order of its arguments. */
  lemma HslDistanceSymmetric(x1: Hsl, x2: Hsl)
    ensures HslDistanceSq(x1, x2) == HslDistanceSq(x2, x1)
  {
    assert Abs(x1.l - x2.l) == Abs(x2.l - x1.l);
    assert HueDelta(x1.h, x2.h) == HueDelta(x2.h, x1.h);
    if x1.s.Fin? && x2.s.Fin? {
      assert Abs(x1.s.v - x2.s.v) == Abs(x2.s.v - x1.s.v);
    }
  }

  /** The distance between two colours does not depend on their order. */
  lemma DistanceSymmetric(c1: Rgb, c2: Rgb)
    ensures DistanceSq(c1, c2) == DistanceSq(c2, c1)
  {
    HslDistanceSymmetric(RgbToHsl(c1), RgbToHsl(c2));
  }

  /** A real square is non-negative, and zero only for zero. */
  lemma SquareSign(x: real)
    ensures x * x >= 0.0
    ensures x * x == 0.0 <==> x == 0.0
  {
    if x != 0.0 {
      assert (x * x) / x == x;
    }
    if x < 0.0 {
      assert x * x == (-x) * (-x);
    }
  }

  /** The distance is zero exactly when both triples are the same, with finite saturation. */
  lemma HslDistanceZeroIff(x1: Hsl, x2: Hsl)
    requires HueInTurn(x1) && HueInTurn(x2)
    ensures HslDistanceSq(x1, x2) == Finite(0.0) <==> x1 == x2 && x1.s.Fin?
  {
    var dH := HueDelta(x1.h, x2.h);
    var dL := Abs(x1.l - x2.l) * 100.0;
    if x1.s.Fin? && x2.s.Fin? {
      var dS := Abs(x1.s.v - x2.s.v) * 100.0;
      var a, b, e := dH * 2.0, dS * 1.0, dL * 1.5;
      SquareSign(a);
      SquareSign(b);
      SquareSign(e);
    }
  }

  /** Two colours are at distance zero exactly when they have the same, finite, HSL form. */
  lemma DistanceZeroIffSameHsl(c1: Rgb, c2: Rgb)
    ensures DistanceSq(c1, c2) == Finite(0.0) <==> RgbToHsl(c1) == RgbToHsl(c2) && RgbToHsl(c1).s.Fin?
  {
    HslDistanceZeroIff(RgbToHsl(c1), RgbToHsl(c2));
  }

  /** Every colour in [0, 255] is at distance zero from itself. */
  lemma DistanceToSelf(c: Rgb)
    requires InRange(c)
    ensures DistanceSq(c, c) == Finite(0.0)
  {
    HslInRange(c);
    DistanceZeroIffSameHsl(c, c);
  }
}
