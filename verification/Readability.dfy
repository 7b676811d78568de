/** The colours chosen are readable even after rounding to 8-bit channels. */
module Readability {
  import opened Options
  import opened Powers
  import opened ColorContrast

  // ---- How much a channel's light can rise ----

  const GAMMA_KNEE := 0.09428 / 1.055

  /** At the threshold the two branches of `lin` differ by less than 0.00005, the upper one possibly the lower. */
  lemma AtTheKnee(p: real -> real)
    requires IsPow24(p)
    ensures 0.003 <= p(GAMMA_KNEE) <= 0.003041
  {
    PowerAtLeast(p, GAMMA_KNEE, 0.003);
    PowerAtLeast(p, GAMMA_KNEE, 0.003041);
    KneePowers();
  }

  lemma KneePowers()
    ensures Pow(0.003, 5) <= Pow(GAMMA_KNEE, 12) < Pow(0.003041, 5)
  {
  }

  const SLACK := 0.00005

  /** By how much y exceeds x. */
  function Rise(x: real, y: real): real {
    if y > x then y - x else 0.0
  }

  /**
    From x to y the light rises by at most 2.275 k times the rise of the channel, plus the slack for the
    jump at the threshold; and k is small when the light at y is.
  */
  predicate RiseBound(p: real -> real, x: real, y: real, k: real) {
    0.0 <= k && Lin(p, y) <= Lin(p, x) + 2.275 * (k * Rise(x, y)) + SLACK && 5.645 * k <= 7.0 * Lin(p, y) + 0.8184
  }

  const LOW := 0.0341

  lemma LowLowRise(p: real -> real, x: real, y: real)
    requires 0.0 <= x <= 1.0 && 0.0 <= y <= KNEE && x <= KNEE
    ensures RiseBound(p, x, y, LOW)
  {
  }

  lemma FallRise(p: real -> real, x: real, y: real)
    requires IsPow24(p) && 0.0 <= y <= x <= 1.0 && KNEE < x
    ensures RiseBound(p, x, y, 0.0)
  {
    if y > KNEE {
      PowerGrows(p, Gamma(y), Gamma(x));
    } else {
      AtTheKnee(p);
      PowerGrows(p, GAMMA_KNEE, Gamma(x));
    }
  }

  /** The tangent is taken where the fifth root is 0.86. */
  lemma SlopeSmall(b: real)
    requires 0.0 <= b
    ensures 5.645 * Pow(b, 7) <= 7.0 * Pow(b, 12) + 0.8184
  {
    SlopeBelowTangent(b, 0.86);
    TangentPoint();
    PowNonNegative(b, 7);
    var k := Pow(b, 7);
    assert 12.0 * (k * Pow(0.86, 5)) == k * (12.0 * Pow(0.86, 5));
    NonNegative(k, 12.0 * Pow(0.86, 5) - 5.645);
    assert k * (12.0 * Pow(0.86, 5) - 5.645) == k * (12.0 * Pow(0.86, 5)) - k * 5.645;
  }

  lemma TangentPoint()
    ensures 12.0 * Pow(0.86, 5) >= 5.645 && 5.0 * Pow(0.86, 12) <= 0.8184
  {
  }

  lemma ScaleRise(s: real, d: real, e: real, k: real)
    requires 0.0 <= s <= k && 0.0 <= d && e == d / 1.055
    ensures 2.4 * (s * e) <= 2.275 * (k * d)
  {
    assert s * (d / 1.055) == (s * d) / 1.055;
    NonNegative(s, d);
    ProductGrows(s, d, k, d);
  }

  /** Within the upper branch of `lin`. */
  lemma PowerClimb(p: real -> real, x: real, y: real, d: real) returns (k: real)
    requires IsPow24(p) && KNEE <= x < y <= 1.0 && d == y - x
    ensures LOW <= k && p(Gamma(y)) <= p(Gamma(x)) + 2.275 * (k * d)
    ensures 5.645 * k <= 7.0 * p(Gamma(y)) + 0.8184
  {
    var e := d / 1.055;
    var root := PowerRise(p, Gamma(x), Gamma(y), e);
    var s := Pow(root, 7);
    SlopeSmall(root);
    PowNonNegative(root, 7);
    k := if s < LOW then LOW else s;
    ScaleRise(s, d, e, k);
    PowerGrows(p, Gamma(y), Gamma(y));
  }

  /** Up to the threshold the lower branch rises by less than LOW allows. */
  lemma CrossingRise(k: real, x: real, y: real)
    requires LOW <= k && 0.0 <= x <= KNEE < y
    ensures KNEE / 12.92 + 2.275 * (k * (y - KNEE)) <= x / 12.92 + 2.275 * (k * (y - x))
  {
    var d := KNEE - x;
    NonNegative(k - LOW, d);
    assert (k - LOW) * d == k * d - LOW * d;
    assert k * (y - x) == k * (y - KNEE) + k * d;
  }

  lemma ClimbRise(p: real -> real, x: real, y: real) returns (k: real)
    requires IsPow24(p) && 0.0 <= x < y <= 1.0 && KNEE < y
    ensures RiseBound(p, x, y, k)
  {
    if x <= KNEE {
      k := PowerClimb(p, KNEE, y, y - KNEE);
      CrossingRise(k, x, y);
      AtTheKnee(p);
      assert Gamma(KNEE) == GAMMA_KNEE;
    } else {
      k := PowerClimb(p, x, y, y - x);
    }
  }

  lemma ChannelRise(p: real -> real, x: real, y: real) returns (k: real)
    requires IsPow24(p) && 0.0 <= x <= 1.0 && 0.0 <= y <= 1.0
    ensures RiseBound(p, x, y, k)
  {
    if x <= KNEE && y <= KNEE {
      LowLowRise(p, x, y);
      k := LOW;
    } else if y <= x {
      FallRise(p, x, y);
      k := 0.0;
    } else {
      k := ClimbRise(p, x, y);
    }
  }

  // ---- Rounding ----

  /** Half a step of an 8-bit channel. */
  const HALF_STEP := 0.5 / 255.0

  lemma RoundedChannel(p: real -> real, v: real) returns (k: real)
    requires IsPow24(p) && IsChannel(v)
    ensures 0.0 <= k && Lin(p, Clamped(v) as real / 255.0) <= Lin(p, v / 255.0) + 2.275 * HALF_STEP * k + SLACK
    ensures 5.645 * k <= 7.0 * Lin(p, Clamped(v) as real / 255.0) + 0.8184
  {
    var x, y := v / 255.0, Clamped(v) as real / 255.0;
    assert Clamped(v) as real <= v + 0.5;
    k := ChannelRise(p, x, y);
    assert Rise(x, y) <= HALF_STEP;
    NonNegative(k, HALF_STEP - Rise(x, y));
    assert k * (HALF_STEP - Rise(x, y)) == k * HALF_STEP - k * Rise(x, y);
  }

  /** Rounding a colour to 8-bit channels hardly brightens it. */
  lemma RoundedLuminance(p: real -> real, r: real, g: real, b: real)
    requires IsPow24(p) && IsChannel(r) && IsChannel(g) && IsChannel(b)
    ensures 0.9944 * LuminanceOf(p, Rgb(Clamped(r), Clamped(g), Clamped(b))) <= RelativeLuminance(p, r, g, b) + 0.0007
  {
    var kr := RoundedChannel(p, r);
    var kg := RoundedChannel(p, g);
    var kb := RoundedChannel(p, b);
  }

  /** Whatever the colour, the darkened one is nearly as dark as the target asks. */
  lemma DarkenedLuminance(p: real -> real, bgHex: string, target: real, out: string)
    requires IsPow24(p) && 1.0 <= target <= 21.0 && Darkened(p, bgHex, target, out)
    ensures HexToRgb(out).Some?
    ensures 0.9944 * LuminanceOf(p, HexToRgb(out).value) <= 1.05 / target - 0.05 + 0.0007
  {
    var c := HexToRgb(bgHex).value;
    if Passes(p, c, 1.0, target) && out == bgHex {
      UnscaledLuminance(p, c);
      PassingLuminance(LuminanceOf(p, c), target);
    } else {
      var lo, hi :| Bracket(p, c, target, lo, hi) && hi - lo == 1.0 / 16777216.0 && out == ScaledHex(c, lo);
      var r, g, b := Scaled(c.r, lo), Scaled(c.g, lo), Scaled(c.b, lo);
      PassingLuminance(ScaledLuminance(p, c, lo), target);
      RgbToHexReads(r, g, b);
      RoundedLuminance(p, r, g, b);
    }
  }

  lemma PassingLuminance(l: real, target: real)
    requires 0.0 <= l <= 1.0 && target >= 1.0 && ContrastRatio(l, 1.0) >= target
    ensures l <= 1.05 / target - 0.05
  {
    ContrastWithWhite(l, target);
    var q := 1.05 / target;
    assert q * target == 1.05;
    if l + 0.05 > q {
      Positive(l + 0.05 - q, target);
      assert (l + 0.05 - q) * target == target * (l + 0.05) - q * target;
    }
  }

  // ---- The promises of WCAG 2.1, success criterion 1.4.3 ----

  const WHITE := "#ffffff"
  const CANVAS := "#f0f2f5"   // the grey page

  lemma WhiteLuminance(p: real -> real)
    requires IsPow24(p)
    ensures HexToRgb(WHITE) == Some(Rgb(255, 255, 255)) && LuminanceOf(p, Rgb(255, 255, 255)) == 1.0
  {
    assert WithoutHash(WHITE) == "ffffff";
    PowOne(12);
    PowOne(5);
    PowerAtLeast(p, 1.0, 1.0);
    PowerGrows(p, 1.0, 1.0);
    assert Gamma(1.0) == 1.0;
  }

  lemma CanvasRed(p: real -> real)
    requires IsPow24(p)
    ensures Lin(p, 240.0 / 255.0) >= 0.871
  {
    PowerAtLeast(p, Gamma(240.0 / 255.0), 0.871);
    assert Pow(Gamma(240.0 / 255.0), 12) >= Pow(0.871, 5);
  }

  lemma CanvasGreen(p: real -> real)
    requires IsPow24(p)
    ensures Lin(p, 242.0 / 255.0) >= 0.8875
  {
    PowerAtLeast(p, Gamma(242.0 / 255.0), 0.8875);
    assert Pow(Gamma(242.0 / 255.0), 12) >= Pow(0.8875, 5);
  }

  lemma CanvasBlue(p: real -> real)
    requires IsPow24(p)
    ensures Lin(p, 245.0 / 255.0) >= 0.913
  {
    PowerAtLeast(p, Gamma(245.0 / 255.0), 0.913);
    assert Pow(Gamma(245.0 / 255.0), 12) >= Pow(0.913, 5);
  }

  lemma CanvasLuminance(p: real -> real)
    requires IsPow24(p)
    ensures HexToRgb(CANVAS) == Some(Rgb(240, 242, 245)) && LuminanceOf(p, Rgb(240, 242, 245)) >= 0.8858
  {
    assert WithoutHash(CANVAS) == "f0f2f5";
    CanvasRed(p);
    CanvasGreen(p);
    CanvasBlue(p);
  }

  lemma RatioAtLeast(l: real, m: real, ratio: real)
    requires 0.0 <= l <= m && m + 0.05 >= ratio * (l + 0.05)
    ensures ContrastRatio(l, m) >= ratio
  {
    var d := l + 0.05;
    var q := (m + 0.05) / d;
    assert q * d == m + 0.05;
    if q < ratio {
      Positive(ratio - q, d);
      assert (ratio - q) * d == ratio * d - q * d;
    }
  }

  /** At the default target, white text on the darkened colour reaches 4.5:1, rounding included. */
  lemma WhiteTextReadable(p: real -> real, bgHex: string, out: string)
    requires IsPow24(p) && Darkened(p, bgHex, 4.6, out)
    ensures HexContrast(p, out, WHITE).Some? && HexContrast(p, out, WHITE).value >= 4.5
  {
    DarkenedLuminance(p, bgHex, 4.6, out);
    WhiteLuminance(p);
    RatioAtLeast(LuminanceOf(p, HexToRgb(out).value), 1.0, 4.5);
  }

  /** In light mode white labels on the primary colour, and it as text on white and on the page, all reach 4.5:1. */
  lemma PrimaryReadable(p: real -> real, brand: string, base: string)
    requires IsPow24(p) && Darkened(p, brand, 5.1, base)
    ensures HexContrast(p, base, WHITE).Some? && HexContrast(p, base, WHITE).value >= 4.5
    ensures HexContrast(p, base, CANVAS).Some? && HexContrast(p, base, CANVAS).value >= 4.5
  {
    DarkenedLuminance(p, brand, 5.1, base);
    var l := LuminanceOf(p, HexToRgb(base).value);
    WhiteLuminance(p);
    RatioAtLeast(l, 1.0, 4.5);
    CanvasLuminance(p);
    RatioAtLeast(l, LuminanceOf(p, Rgb(240, 242, 245)), 4.5);
  }

  /** In light mode the label is always white. */
  lemma LabelIsWhite(p: real -> real, brand: string, base: string)
    requires IsPow24(p)
    requires if HexToRgb(brand).Some? then Darkened(p, brand, 5.1, base) else base == brand
    ensures PickReadableTextColor(p, base, DARK_TEXT, LIGHT_TEXT) == LIGHT_TEXT
  {
    if HexToRgb(brand).Some? {
      DarkenedLuminance(p, brand, 5.1, base);
      var l := LuminanceOf(p, HexToRgb(base).value);
      assert l <= 0.158;
      RatioAtLeast(l, 1.0, 5.0);
      assert ContrastRatio(l, 0.0) == (l + 0.05) / 0.05;
    }
  }
}
