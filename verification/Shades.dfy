/** Hover and pressed shades of a colour: never lighter, and exactly when they are darker. */
module Shades {
  import opened Options
  import opened Powers
  import opened ColorContrast
  import opened Readability

  // ---- On 8-bit channels the light grows with the channel ----

  /** At 10 the lower branch still holds, at 11 the upper one: no 8-bit channel meets the drop between them. */
  lemma AcrossTheKnee(p: real -> real)
    requires IsPow24(p)
    ensures Lin(p, 10.0 / 255.0) < 0.0031 <= Lin(p, 11.0 / 255.0)
  {
    PowerAtLeast(p, Gamma(11.0 / 255.0), 0.0031);
    assert Pow(Gamma(11.0 / 255.0), 12) >= Pow(0.0031, 5);
  }

  lemma PowerGrowsStrictly(p: real -> real, u: real, v: real)
    requires IsPow24(p) && 0.0 <= u < v <= 1.0
    ensures p(u) < p(v)
  {
    PowGrowsStrictly(u, v, 12);
    PowerAtLeast(p, u, p(v));
    PowerGrows(p, u, v);
  }

  function Light(p: real -> real, n: int): real {
    Lin(p, n as real / 255.0)
  }

  lemma LightGrows(p: real -> real, a: int, b: int)
    requires IsPow24(p) && 0 <= a < b <= 255
    ensures Light(p, a) < Light(p, b)
  {
    if a > 10 {
      PowerGrowsStrictly(p, Gamma(a as real / 255.0), Gamma(b as real / 255.0));
    } else if b > 10 {
      AcrossTheKnee(p);
      PowerGrows(p, Gamma(11.0 / 255.0), Gamma(b as real / 255.0));
    }
  }

  /** No channel of c is above that of d. */
  predicate NotLighter(c: Rgb, d: Rgb) {
    c.r <= d.r && c.g <= d.g && c.b <= d.b
  }

  lemma LuminanceGrows(p: real -> real, c: Rgb, d: Rgb)
    requires IsPow24(p) && c.Valid() && d.Valid() && NotLighter(c, d)
    ensures LuminanceOf(p, c) <= LuminanceOf(p, d)
    ensures LuminanceOf(p, c) < LuminanceOf(p, d) <==> c != d
  {
    hide Lin;
    if c.r < d.r { LightGrows(p, c.r, d.r); }
    if c.g < d.g { LightGrows(p, c.g, d.g); }
    if c.b < d.b { LightGrows(p, c.b, d.b); }
    assert LuminanceOf(p, c) == Weighted(Light(p, c.r), Light(p, c.g), Light(p, c.b));
    assert LuminanceOf(p, d) == Weighted(Light(p, d.r), Light(p, d.g), Light(p, d.b));
  }

  /** A darker colour has more contrast with white. */
  lemma DarkerHasMoreContrast(l: real, m: real)
    requires 0.0 <= l <= m <= 1.0
    ensures ContrastRatio(l, 1.0) >= ContrastRatio(m, 1.0)
    ensures ContrastRatio(l, 1.0) > ContrastRatio(m, 1.0) <==> l < m
  {
    var u, t := ContrastRatio(l, 1.0), ContrastRatio(m, 1.0);
    ContrastWithWhite(l, t);
    ContrastWithWhite(m, u);
    assert u * (l + 0.05) == 1.05 && t * (m + 0.05) == 1.05;
    NonNegative(t, m - l);
    assert t * (m - l) == t * (m + 0.05) - t * (l + 0.05);
    if l < m {
      Positive(u, m - l);
      assert u * (m - l) == u * (m + 0.05) - u * (l + 0.05);
    }
  }

  // ---- Shades ----

  /** A channel shaded: scaled and rounded. */
  function Shaded(n: int, factor: real): int {
    Clamped(ShadeChannel(n, factor))
  }

  function ShadedRgb(c: Rgb, factor: real): Rgb {
    Rgb(Shaded(c.r, factor), Shaded(c.g, factor), Shaded(c.b, factor))
  }

  lemma ShadeReads(hex: string, factor: real)
    requires HexToRgb(hex).Some?
    ensures HexToRgb(Shade(hex, factor)) == Some(ShadedRgb(HexToRgb(hex).value, factor))
  {
    hide HexToRgb, RgbToHex, Clamped, ShadeChannel;
    var c := HexToRgb(hex).value;
    RgbToHexReads(ShadeChannel(c.r, factor), ShadeChannel(c.g, factor), ShadeChannel(c.b, factor));
  }

  lemma ShadedGrows(n: int, f: real, g: real)
    requires 0 <= n <= 255 && 0.0 <= f <= g <= 1.0
    ensures 0 <= Shaded(n, f) <= Shaded(n, g) <= n
  {
    ScaledChannel(n, f);
    ScaledChannel(n, g);
    NonNegative(n as real, g - f);
    NonNegative(n as real, 1.0 - g);
    assert n as real * (g - f) == n as real * g - n as real * f;
    assert n as real * (1.0 - g) == n as real - n as real * g;
  }

  lemma ShadedRgbGrows(c: Rgb, f: real, g: real)
    requires c.Valid() && 0.0 <= f <= g <= 1.0
    ensures NotLighter(ShadedRgb(c, f), ShadedRgb(c, g)) && NotLighter(ShadedRgb(c, g), c)
    ensures ShadedRgb(c, f).Valid() && ShadedRgb(c, g).Valid()
  {
    ShadedGrows(c.r, f, g);
    ShadedGrows(c.g, f, g);
    ShadedGrows(c.b, f, g);
  }

  /** The contrast of a colour with white. */
  function OnWhite(p: real -> real, c: Rgb): real
    requires IsPow24(p) && c.Valid()
  {
    ContrastRatio(LuminanceOf(p, c), 1.0)
  }

  lemma DarkerOnWhite(p: real -> real, c: Rgb, d: Rgb)
    requires IsPow24(p) && c.Valid() && d.Valid() && NotLighter(c, d)
    ensures OnWhite(p, c) >= OnWhite(p, d) && (OnWhite(p, c) > OnWhite(p, d) <==> c != d)
  {
    hide ContrastRatio, LuminanceOf;
    LuminanceGrows(p, c, d);
    DarkerHasMoreContrast(LuminanceOf(p, c), LuminanceOf(p, d));
  }

  lemma OnWhiteIs(p: real -> real, hex: string)
    requires IsPow24(p) && HexToRgb(hex).Some?
    ensures HexContrast(p, hex, WHITE) == Some(OnWhite(p, HexToRgb(hex).value))
  {
    WhiteLuminance(p);
  }

  /** Any shade of a colour has at least its contrast with white: rounding never undoes the shading. */
  lemma ShadesStayReadable(p: real -> real, hex: string, factor: real)
    requires IsPow24(p) && HexToRgb(hex).Some? && 0.0 <= factor <= 1.0
    ensures HexContrast(p, Shade(hex, factor), WHITE).Some? && HexContrast(p, hex, WHITE).Some?
    ensures HexContrast(p, Shade(hex, factor), WHITE).value >= HexContrast(p, hex, WHITE).value
  {
    hide HexContrast, OnWhite, Shade;
    var c := HexToRgb(hex).value;
    ShadeReads(hex, factor);
    ShadedRgbGrows(c, factor, factor);
    DarkerOnWhite(p, ShadedRgb(c, factor), c);
    OnWhiteIs(p, hex);
    OnWhiteIs(p, Shade(hex, factor));
  }

  const HOVER := 0.88
  const PRESSED := 0.77

  lemma HoverChannel(n: int)
    requires 0 <= n <= 255
    ensures Shaded(n, HOVER) == n <==> n < 5
  {
  }

  lemma PressedChannel(n: int)
    requires 0 <= n <= 255
    ensures Shaded(n, PRESSED) == Shaded(n, HOVER) <==> n in {0, 1, 2, 5, 6}
  {
  }

  /** The hover shade is darker than the colour exactly when some channel is at least 5. */
  lemma HoverIsDarker(p: real -> real, base: string)
    requires IsPow24(p) && HexToRgb(base).Some?
    ensures HexContrast(p, base, WHITE).Some? && HexContrast(p, Shade(base, HOVER), WHITE).Some?
    ensures var c := HexToRgb(base).value;
            HexContrast(p, Shade(base, HOVER), WHITE).value > HexContrast(p, base, WHITE).value
            <==> c.r >= 5 || c.g >= 5 || c.b >= 5
  {
    hide HexContrast, OnWhite, Shade, Shaded;
    var c := HexToRgb(base).value;
    ShadeReads(base, HOVER);
    ShadedRgbGrows(c, HOVER, HOVER);
    DarkerOnWhite(p, ShadedRgb(c, HOVER), c);
    OnWhiteIs(p, base);
    OnWhiteIs(p, Shade(base, HOVER));
    HoverChannel(c.r);
    HoverChannel(c.g);
    HoverChannel(c.b);
  }

  /** And the pressed shade darker than the hover shade exactly when some channel is none of 0, 1, 2, 5, 6. */
  lemma PressedIsDarker(p: real -> real, base: string)
    requires IsPow24(p) && HexToRgb(base).Some?
    ensures HexContrast(p, Shade(base, PRESSED), WHITE).Some? && HexContrast(p, Shade(base, HOVER), WHITE).Some?
    ensures var c := HexToRgb(base).value;
            HexContrast(p, Shade(base, PRESSED), WHITE).value > HexContrast(p, Shade(base, HOVER), WHITE).value
            <==> !({c.r, c.g, c.b} <= {0, 1, 2, 5, 6})
  {
    hide HexContrast, OnWhite, Shade, Shaded;
    var c := HexToRgb(base).value;
    ShadeReads(base, HOVER);
    ShadeReads(base, PRESSED);
    ShadedRgbGrows(c, PRESSED, HOVER);
    DarkerOnWhite(p, ShadedRgb(c, PRESSED), ShadedRgb(c, HOVER));
    OnWhiteIs(p, Shade(base, PRESSED));
    OnWhiteIs(p, Shade(base, HOVER));
    PressedChannel(c.r);
    PressedChannel(c.g);
    PressedChannel(c.b);
  }

  /** In light mode links and buttons stay readable on white when hovered and pressed. */
  lemma PrimaryShadesReadable(p: real -> real, brand: string, base: string)
    requires IsPow24(p) && Darkened(p, brand, 5.1, base)
    ensures HexContrast(p, Shade(base, HOVER), WHITE).Some? && HexContrast(p, Shade(base, HOVER), WHITE).value >= 4.5
    ensures HexContrast(p, Shade(base, PRESSED), WHITE).Some?
            && HexContrast(p, Shade(base, PRESSED), WHITE).value >= 4.5
  {
    DarkenedLuminance(p, brand, 5.1, base);
    hide Darkened, HexContrast, Shade;
    PrimaryReadable(p, brand, base);
    ShadesStayReadable(p, base, HOVER);
    ShadesStayReadable(p, base, PRESSED);
  }
}
