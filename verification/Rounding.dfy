/** How close to the least darkening the search comes, and what rounding to 8-bit channels does to its target. */
module Rounding {
  import opened Options
  import opened Powers
  import opened ColorContrast
  import opened Readability
  import opened Shades

  // ---- Light and order ----

  /** From channel 11 up a lower channel has no more light. */
  lemma LightKeepsOrder(p: real -> real, x: real, y: real)
    requires IsPow24(p) && 0.0 <= x <= y <= 1.0 && y >= 11.0 / 255.0
    ensures Lin(p, x) <= Lin(p, y)
  {
    if x > KNEE {
      PowerGrows(p, Gamma(x), Gamma(y));
    } else {
      AcrossTheKnee(p);
      PowerGrows(p, Gamma(11.0 / 255.0), Gamma(y));
    }
  }

  /** The drop at the threshold, closely. */
  lemma DropAtTheKnee(p: real -> real)
    requires IsPow24(p)
    ensures 0.003039 <= p(GAMMA_KNEE)
  {
    PowerAtLeast(p, GAMMA_KNEE, 0.003039);
    assert Pow(GAMMA_KNEE, 12) >= Pow(0.003039, 5);
  }

  /** An 8-bit channel has no more light than any channel value it is not above. */
  lemma RoundedDownLight(p: real -> real, n: int, v: real)
    requires IsPow24(p) && 0 <= n && n as real <= v <= 255.0
    ensures Light(p, n) <= Lin(p, v / 255.0)
  {
    if n >= 11 {
      LightKeepsOrder(p, n as real / 255.0, v / 255.0);
    } else if v / 255.0 > KNEE {
      DropAtTheKnee(p);
      PowerGrows(p, GAMMA_KNEE, Gamma(v / 255.0));
    }
  }

  predicate RoundedDown(v: real) {
    Clamped(v) as real <= v
  }

  /** Rounding loses the target only by rounding some channel up. */
  lemma RoundedDownKeepsTarget(p: real -> real, c: Rgb, t: real, target: real)
    requires IsPow24(p) && c.Valid() && 0.0 <= t <= 1.0 && Passes(p, c, t, target)
    requires RoundedDown(Scaled(c.r, t)) && RoundedDown(Scaled(c.g, t)) && RoundedDown(Scaled(c.b, t))
    ensures OnWhite(p, Rgb(Clamped(Scaled(c.r, t)), Clamped(Scaled(c.g, t)), Clamped(Scaled(c.b, t)))) >= target
  {
    hide Clamped, Lin;
    var d := Rgb(Clamped(Scaled(c.r, t)), Clamped(Scaled(c.g, t)), Clamped(Scaled(c.b, t)));
    RoundedDownLight(p, d.r, Scaled(c.r, t));
    RoundedDownLight(p, d.g, Scaled(c.g, t));
    RoundedDownLight(p, d.b, Scaled(c.b, t));
    assert LuminanceOf(p, d) == Weighted(Light(p, d.r), Light(p, d.g), Light(p, d.b));
    DarkerHasMoreContrast(LuminanceOf(p, d), ScaledLuminance(p, c, t));
  }

  // ---- The least darkening ----

  lemma AtLeast(q: real, k: real, b: real)
    requires b > 0.0 && q * b >= k * b
    ensures q >= k
  {
    assert (k - q) * b == k * b - q * b;
    if q < k {
      Positive(k - q, b);
    }
  }

  lemma PowersScale(u: real, r: real, v: real, y: real, z: real, five: nat, seven: nat)
    requires 0.0 <= u && 1.0 <= r && v == u * r && z == y * r && Pow(y, five) == Pow(u, five + seven)
    ensures Pow(v, five + seven) >= Pow(z, five)
  {
    PowTimes(u, r, five + seven);
    PowTimes(y, r, five);
    PowAdd(r, five, seven);
    PowGrows(1.0, r, seven);
    PowOne(seven);
    PowSign(r, five);
    PowSign(u, five + seven);
    ProductGrows(Pow(r, five), 1.0, Pow(r, five), Pow(r, seven));
    ProductGrows(Pow(u, five + seven), Pow(r, five), Pow(u, five + seven), Pow(r, five + seven));
  }

  /** The power grows at least in proportion. */
  lemma PowerScales(p: real -> real, u: real, r: real, v: real)
    requires IsPow24(p) && 0.0 <= u <= 1.0 && r >= 1.0 && 0.0 <= v <= 1.0 && v == u * r
    ensures p(v) >= p(u) * r
  {
    hide Pow;
    var z := p(u) * r;
    NonNegative(p(u), r);
    PowersScale(u, r, v, p(u), z, 5, 7);
    PowerAtLeast(p, v, z);
  }

  /** What light l gains at least when its channel grows by the part e. */
  function Gain(e: real, l: real): real {
    0.4 * (e * (l - 0.0031)) - 0.0000013
  }

  lemma NoGain(e: real, l: real)
    requires e >= 0.0 && l <= 0.0031
    ensures Gain(e, l) <= -0.0000013
  {
    NonNegative(e, 0.0031 - l);
    assert e * (0.0031 - l) == -(e * (l - 0.0031));
  }

  lemma RealGain(e: real, l: real)
    requires e >= 0.0001 && l >= 0.1
    ensures Gain(e, l) > 0.0
  {
    ProductGrows(0.0001, 0.0969, e, l - 0.0031);
  }

  /** What a channel gains when it grows by the part e, whichever side of the threshold it is on. */
  lemma ChannelGain(p: real -> real, x: real, e: real, y: real)
    requires IsPow24(p) && 0.0 <= x <= y <= 1.0 && 0.0 <= e && y == x + x * e
    ensures Lin(p, y) >= Lin(p, x) + Gain(e, Lin(p, x))
  {
    hide Gain;
    if x > KNEE {
      UpperGain(p, x, e, y);
    } else {
      NoGain(e, Lin(p, x));
      if y > KNEE {
        DropAtTheKnee(p);
        PowerGrows(p, GAMMA_KNEE, Gamma(y));
      }
    }
  }

  lemma UpperGain(p: real -> real, x: real, e: real, y: real)
    requires IsPow24(p) && KNEE < x <= y <= 1.0 && 0.0 <= e && y == x + x * e
    ensures Lin(p, y) >= Lin(p, x) + Gain(e, Lin(p, x))
  {
    hide Gain;
    var r := (y + 0.055) / (x + 0.055);
    var u, v := Gamma(x), Gamma(y);
    RatioOfGammas(x, y, r);
    RatioGrows(x, e, y, r);
    PowerGrows(p, u, v);
    PowerScales(p, u, r, v);
    ProportionalGain(e, p(u), r);
  }

  lemma ProportionalGain(e: real, l: real, r: real)
    requires e >= 0.0 && l >= 0.0 && r >= 1.0 + 0.4 * e
    ensures l * r >= l + Gain(e, l)
  {
    NonNegative(l, r - 1.0 - 0.4 * e);
    assert l * (r - 1.0 - 0.4 * e) == l * r - l - 0.4 * (e * l);
    assert e * (l - 0.0031) == e * l - 0.0031 * e;
  }

  lemma RatioOfGammas(x: real, y: real, r: real)
    requires 0.0 <= x <= y && r == (y + 0.055) / (x + 0.055)
    ensures r >= 1.0 && r * (x + 0.055) == y + 0.055 && Gamma(x) * r == Gamma(y)
  {
    var b := x + 0.055;
    assert r * b == y + 0.055;
    AtLeast(r, 1.0, b);
    assert Gamma(x) * r == r * b / 1.055;
  }

  lemma RatioGrows(x: real, e: real, y: real, r: real)
    requires KNEE < x && e >= 0.0 && y == x + x * e && r * (x + 0.055) == y + 0.055
    ensures r >= 1.0 + 0.4 * e
  {
    NonNegative(e, x - KNEE);
    assert e * (x - KNEE) == x * e - KNEE * e;
    assert (1.0 + 0.4 * e) * (x + 0.055) == x + 0.055 + 0.4 * (x * e) + 0.022 * e;
    AtLeast(r, 1.0 + 0.4 * e, x + 0.055);
  }

  lemma ChannelUp(p: real -> real, n: int, hi: real, t: real, e: real)
    requires IsPow24(p) && 0 <= n <= 255 && 0.0 < hi <= t <= 1.0 && e >= 0.0 && t == hi + hi * e
    ensures var l := Lin(p, Scaled(n, hi) / 255.0); Lin(p, Scaled(n, t) / 255.0) >= l + Gain(e, l)
  {
    var x, y := Scaled(n, hi) / 255.0, Scaled(n, t) / 255.0;
    NonNegative(n as real, t - hi);
    assert n as real * (t - hi) == n as real * t - n as real * hi;
    assert n as real * (hi * e) == (n as real * hi) * e;
    assert n as real * t == n as real * hi + n as real * (hi * e);
    ChannelGain(p, x, e, y);
  }

  lemma WeightedGain(e: real, x: real, y: real, z: real)
    ensures Weighted(x + Gain(e, x), y + Gain(e, y), z + Gain(e, z)) == Weighted(x, y, z) + Gain(e, Weighted(x, y, z))
  {
    var l := Weighted(x, y, z);
    assert e * (x - 0.0031) == e * x - 0.0031 * e;
    assert e * (y - 0.0031) == e * y - 0.0031 * e;
    assert e * (z - 0.0031) == e * z - 0.0031 * e;
    assert e * (l - 0.0031) == e * l - 0.0031 * e;
    assert e * l == 0.2126 * (e * x) + 0.7152 * (e * y) + 0.0722 * (e * z);
  }

  /** Scaling a colour up from hi to t. */
  lemma ScaledUp(p: real -> real, c: Rgb, hi: real, t: real, e: real)
    requires IsPow24(p) && c.Valid() && 0.0 < hi <= t <= 1.0 && e >= 0.0 && t == hi + hi * e
    ensures var l := ScaledLuminance(p, c, hi); ScaledLuminance(p, c, t) >= l + Gain(e, l)
  {
    hide Gain, Scaled, Lin;
    ChannelUp(p, c.r, hi, t, e);
    ChannelUp(p, c.g, hi, t, e);
    ChannelUp(p, c.b, hi, t, e);
    WeightedGain(e, Lin(p, Scaled(c.r, hi) / 255.0), Lin(p, Scaled(c.g, hi) / 255.0), Lin(p, Scaled(c.b, hi) / 255.0));
  }

  lemma PartIsMore(d: real, hi: real, e: real)
    requires 0.0 < hi <= 1.0 && d >= 0.0 && hi * e == d
    ensures e >= d
  {
    assert e * hi == hi * e && 0.0 * hi == 0.0;
    AtLeast(e, 0.0, hi);
    NonNegative(e, 1.0 - hi);
    assert e * (1.0 - hi) == e - hi * e;
  }

  /** In terms of luminance: white passes up to this. */
  lemma PassesUpTo(p: real -> real, c: Rgb, t: real, target: real)
    requires IsPow24(p) && c.Valid() && 0.0 <= t <= 1.0 && target >= 1.0
    ensures Passes(p, c, t, target) <==> ScaledLuminance(p, c, t) <= 1.05 / target - 0.05
  {
    var l, q := ScaledLuminance(p, c, t), 1.05 / target;
    ContrastWithWhite(l, target);
    assert q * target == 1.05;
    assert (q - l - 0.05) * target == q * target - target * (l + 0.05);
    if l + 0.05 > q {
      Positive(l + 0.05 - q, target);
      assert (l + 0.05 - q) * target == -((q - l - 0.05) * target);
    } else {
      NonNegative(q - l - 0.05, target);
    }
  }

  lemma BudgetOf(target: real)
    requires 1.0 <= target <= 7.0
    ensures 1.05 / target - 0.05 >= 0.1
  {
    var q := 1.05 / target;
    assert q * target == 1.05;
    assert 0.15 * target <= 1.05;
    AtLeast(q, 0.15, target);
  }

  /**
    The search darkens hardly more than it must: for any target up to 7, white fails at every scale a
    ten-thousandth above the failing one it ends with.
  */
  lemma LeastDarkening(p: real -> real, c: Rgb, target: real, lo: real, hi: real, t: real)
    requires IsPow24(p) && c.Valid() && 1.0 <= target <= 7.0
    requires Bracket(p, c, target, lo, hi) && hi + 0.0001 <= t <= 1.0
    ensures !Passes(p, c, t, target)
  {
    hide Gain, Passes, ScaledLuminance;
    var e := (t - hi) / hi;
    assert hi * e == t - hi;
    PartIsMore(t - hi, hi, e);
    ScaledUp(p, c, hi, t, e);
    BudgetOf(target);
    PassesUpTo(p, c, hi, target);
    PassesUpTo(p, c, t, target);
    RealGain(e, ScaledLuminance(p, c, hi));
  }

  // ---- Which colours of one strength keep the default target ----

  /** Which channels are on. */
  datatype Mask = Mask(r: bool, g: bool, b: bool)

  /** The colour with those channels at n. */
  function Flat(mask: Mask, n: int): Rgb {
    Rgb(if mask.r then n else 0, if mask.g then n else 0, if mask.b then n else 0)
  }

  function Weight(mask: Mask): real {
    (if mask.r then 0.2126 else 0.0) + (if mask.g then 0.7152 else 0.0) + (if mask.b then 0.0722 else 0.0)
  }

  /** The luminance at which white text has a contrast of exactly 4.6. */
  const BOUND := 1.05 / 4.6 - 0.05

  lemma NoChannel(p: real -> real, t: real)
    requires 0.0 <= t <= 1.0
    ensures Scaled(0, t) == 0.0 && Lin(p, 0.0) == 0.0
  {
  }

  lemma FlatLuminance(p: real -> real, mask: Mask, n: int, t: real)
    requires IsPow24(p) && 0 <= n <= 255 && 0.0 <= t <= 1.0
    ensures Flat(mask, n).Valid()
    ensures ScaledLuminance(p, Flat(mask, n), t) == Weight(mask) * Lin(p, Scaled(n, t) / 255.0)
    ensures Passes(p, Flat(mask, n), t, 4.6) <==> Weight(mask) * Lin(p, Scaled(n, t) / 255.0) <= BOUND
  {
    hide Scaled, Lin;
    NoChannel(p, t);
    var c, l := Flat(mask, n), Lin(p, Scaled(n, t) / 255.0);
    assert 0.0 / 255.0 == 0.0;
    assert Lin(p, Scaled(c.r, t) / 255.0) == if mask.r then l else 0.0;
    assert Lin(p, Scaled(c.g, t) / 255.0) == if mask.g then l else 0.0;
    assert Lin(p, Scaled(c.b, t) / 255.0) == if mask.b then l else 0.0;
    WeightOf(mask, l);
    PassesUpTo(p, c, t, 4.6);
  }

  lemma WeightOf(mask: Mask, l: real)
    ensures Weighted(if mask.r then l else 0.0, if mask.g then l else 0.0, if mask.b then l else 0.0)
            == Weight(mask) * l
  {
  }

  /** White passes at channel value low and fails at high; both round to m. */
  predicate Crossing(p: real -> real, mask: Mask, low: real, high: real, m: int) {
    && 11.0 <= low < high <= 255.0 && m as real - 0.499 <= low && high < m as real + 0.5
    && Weight(mask) * Lin(p, low / 255.0) <= BOUND < Weight(mask) * Lin(p, high / 255.0)
  }

  lemma WeightedOrder(mask: Mask, x: real, y: real)
    requires x <= y
    ensures Weight(mask) * x <= Weight(mask) * y
  {
    NonNegative(Weight(mask), y - x);
    assert Weight(mask) * (y - x) == Weight(mask) * y - Weight(mask) * x;
  }

  /** Where a failing scale is, and where a passing one is. */
  lemma CrossingSides(p: real -> real, mask: Mask, low: real, high: real, m: int, n: int, t: real)
    requires IsPow24(p) && Crossing(p, mask, low, high, m) && 0 <= n <= 255 && 0.0 <= t <= 1.0
    ensures Passes(p, Flat(mask, n), t, 4.6) ==> Scaled(n, t) < high
    ensures !Passes(p, Flat(mask, n), t, 4.6) ==> Scaled(n, t) > low
  {
    hide Scaled, Lin;
    var v := Scaled(n, t);
    FlatLuminance(p, mask, n, t);
    if v >= high {
      LightKeepsOrder(p, high / 255.0, v / 255.0);
      WeightedOrder(mask, Lin(p, high / 255.0), Lin(p, v / 255.0));
    } else if v <= low {
      LightKeepsOrder(p, v / 255.0, low / 255.0);
      WeightedOrder(mask, Lin(p, v / 255.0), Lin(p, low / 255.0));
    }
  }

  /** So the search ends at a channel that rounds to m. */
  lemma SearchEnds(p: real -> real, mask: Mask, low: real, high: real, m: int, n: int, lo: real, hi: real)
    requires IsPow24(p) && Crossing(p, mask, low, high, m) && 0 <= n <= 255
    requires Flat(mask, n).Valid() && Bracket(p, Flat(mask, n), 4.6, lo, hi) && hi - lo == 1.0 / 16777216.0
    ensures Clamped(Scaled(n, lo)) == m && n as real > low
  {
    hide Lin, Crossing;
    CrossingSides(p, mask, low, high, m, n, lo);
    CrossingSides(p, mask, low, high, m, n, hi);
    CrossingRange(p, mask, low, high, m);
    CloseChannels(n, lo, hi);
  }

  lemma CrossingRange(p: real -> real, mask: Mask, low: real, high: real, m: int)
    requires Crossing(p, mask, low, high, m)
    ensures 11.0 <= low && m as real - 0.499 <= low && high < m as real + 0.5
  {
  }

  lemma CloseChannels(n: int, lo: real, hi: real)
    requires 0 <= n <= 255 && 0.0 <= lo < hi <= 1.0 && hi - lo == 1.0 / 16777216.0
    ensures Scaled(n, hi) - Scaled(n, lo) <= 0.0001 && Scaled(n, hi) <= n as real
  {
    assert n as real * (hi - lo) == n as real * hi - n as real * lo;
    assert n as real * (1.0 / 16777216.0) <= 255.0 / 16777216.0;
    NonNegative(n as real, 1.0 - hi);
    assert n as real * (1.0 - hi) == n as real - n as real * hi;
  }

  lemma FlatRounded(mask: Mask, n: int, lo: real, m: int)
    requires Flat(mask, n).Valid() && 0 <= n <= 255 && 0.0 <= lo <= 1.0 && Clamped(Scaled(n, lo)) == m
    ensures HexToRgb(ScaledHex(Flat(mask, n), lo)) == Some(Flat(mask, m))
  {
    hide HexToRgb, RgbToHex, Scaled;
    var c := Flat(mask, n);
    NoLight(lo);
    RgbToHexReads(Scaled(c.r, lo), Scaled(c.g, lo), Scaled(c.b, lo));
  }

  lemma NoLight(t: real)
    requires 0.0 <= t <= 1.0
    ensures Clamped(Scaled(0, t)) == 0
  {
  }

  lemma FlatOnWhite(p: real -> real, mask: Mask, n: int)
    requires IsPow24(p) && 0 <= n <= 255
    ensures Flat(mask, n).Valid()
    ensures OnWhite(p, Flat(mask, n)) >= 4.6 <==> Weight(mask) * Light(p, n) <= BOUND
  {
    hide Lin, ScaledLuminance, LuminanceOf;
    FlatLuminance(p, mask, n, 1.0);
    UnscaledLuminance(p, Flat(mask, n));
    WholeChannel(n);
    PassesUpTo(p, Flat(mask, n), 1.0, 4.6);
  }

  lemma WholeChannel(n: int)
    requires 0 <= n <= 255
    ensures Scaled(n, 1.0) == n as real
  {
  }

  /** The result is the colour itself when that passes, and else the one with m. */
  lemma FlatResult(p: real -> real, mask: Mask, low: real, high: real, m: int, n: int, brand: string, out: string)
    requires IsPow24(p) && Crossing(p, mask, low, high, m) && 0 <= n <= 255
    requires HexToRgb(brand) == Some(Flat(mask, n)) && Darkened(p, brand, 4.6, out)
    ensures (n as real < high && out == brand && OnWhite(p, Flat(mask, n)) >= 4.6)
            || (n as real > low && HexToRgb(out) == Some(Flat(mask, m)))
  {
    hide HexToRgb, ScaledHex, Clamped;
    var c := Flat(mask, n);
    if Passes(p, c, 1.0, 4.6) && out == brand {
      CrossingSides(p, mask, low, high, m, n, 1.0);
      UnscaledLuminance(p, c);
      WholeChannel(n);
    } else {
      var lo, hi :| Bracket(p, c, 4.6, lo, hi) && hi - lo == 1.0 / 16777216.0 && out == ScaledHex(c, lo);
      SearchEnds(p, mask, low, high, m, n, lo, hi);
      FlatRounded(mask, n, lo, m);
    }
  }

  // ---- The crossings, by the colour's hue ----

  const RED := Mask(true, false, false)
  const GREEN := Mask(false, true, false)
  const YELLOW := Mask(true, true, false)
  const MAGENTA := Mask(true, false, true)
  const CYAN := Mask(false, true, true)
  const GREY := Mask(true, true, true)

  lemma LightBelow(p: real -> real, c: real, y: real)
    requires IsPow24(p) && KNEE < c <= 1.0 && 0.0 <= y && Pow(Gamma(c), 12) < Pow(y, 5)
    ensures Lin(p, c) < y
  {
    PowerAtLeast(p, Gamma(c), y);
  }

  lemma LightAbove(p: real -> real, c: real, y: real)
    requires IsPow24(p) && KNEE < c <= 1.0 && 0.0 <= y && Pow(Gamma(c), 12) >= Pow(y, 5)
    ensures Lin(p, c) >= y
  {
    PowerAtLeast(p, Gamma(c), y);
  }

  lemma RedCrossing(p: real -> real)
    requires IsPow24(p)
    ensures Crossing(p, RED, 235.6, 236.0, 236)
  {
    LightBelow(p, 235.6 / 255.0, 0.8384);
    LightAbove(p, 236.0 / 255.0, 0.8386);
  }

  lemma GreenCrossing(p: real -> real)
    requires IsPow24(p)
    ensures Crossing(p, GREEN, 136.6, 137.0, 137)
  {
    LightBelow(p, 136.6 / 255.0, 0.2492);
    LightAbove(p, 137.0 / 255.0, 0.2495);
  }

  lemma CyanCrossing(p: real -> real)
    requires IsPow24(p)
    ensures Crossing(p, CYAN, 130.7, 131.0, 131)
  {
    LightBelow(p, 130.7 / 255.0, 0.2262);
    LightAbove(p, 131.0 / 255.0, 0.2266);
  }

  lemma YellowCrossing(p: real -> real)
    requires IsPow24(p)
    ensures Crossing(p, YELLOW, 121.0, 121.4, 121)
  {
    LightBelow(p, 121.0 / 255.0, 0.1915);
    LightAbove(p, 121.4 / 255.0, 0.1923);
  }

  lemma MagentaCrossing(p: real -> real)
    requires IsPow24(p)
    ensures Crossing(p, MAGENTA, 207.0, 207.4, 207)
  {
    LightBelow(p, 207.0 / 255.0, 0.6245);
    LightAbove(p, 207.4 / 255.0, 0.6262);
  }

  lemma GreyCrossing(p: real -> real)
    requires IsPow24(p)
    ensures Crossing(p, GREY, 117.0, 117.3, 117)
  {
    LightBelow(p, 117.0 / 255.0, 0.178);
    LightAbove(p, 117.3 / 255.0, 0.1785);
  }

  /** From where on the target is missed: never, except for pure reds, greens and cyans. */
  function FirstMiss(mask: Mask): int {
    if mask == RED then 236 else if mask == GREEN then 137 else if mask == CYAN then 131 else 256
  }

  lemma BlueAlwaysPasses(p: real -> real, mask: Mask, n: int, t: real)
    requires IsPow24(p) && 0 <= n <= 255 && 0.0 <= t <= 1.0 && !mask.r && !mask.g
    ensures Flat(mask, n).Valid() && Passes(p, Flat(mask, n), t, 4.6)
  {
    hide Scaled, Lin;
    FlatLuminance(p, mask, n, t);
    LinRange(p, Scaled(n, t) / 255.0);
  }

  /** From a crossing: whether rounding to m keeps the target decides it. */
  lemma CrossingDecides(p: real -> real, mask: Mask, low: real, high: real, m: int, n: int, brand: string, out: string)
    requires IsPow24(p) && Crossing(p, mask, low, high, m) && 0 <= n <= 255 && 0 <= m <= 255
    requires HexToRgb(brand) == Some(Flat(mask, n)) && Darkened(p, brand, 4.6, out)
    requires if FirstMiss(mask) == 256 then low == m as real
             else high == m as real == FirstMiss(mask) as real && low > m as real - 1.0
    ensures HexToRgb(out).Some? && (OnWhite(p, HexToRgb(out).value) >= 4.6 <==> n < FirstMiss(mask))
  {
    hide HexToRgb, Darkened;
    FlatResult(p, mask, low, high, m, n, brand, out);
    FlatOnWhite(p, mask, m);
  }

  /**
    For every colour whose channels are each 0 or n: the darkened and rounded colour reaches the default
    target 4.6 exactly when the colour is no pure red from 236, green from 137 or cyan from 131 on.
  */
  lemma FlatColoursReachTarget(p: real -> real, mask: Mask, n: int, brand: string, out: string)
    requires IsPow24(p) && 0 <= n <= 255
    requires HexToRgb(brand) == Some(Flat(mask, n)) && Darkened(p, brand, 4.6, out)
    ensures HexContrast(p, out, WHITE).Some?
    ensures HexContrast(p, out, WHITE).value >= 4.6 <==> n < FirstMiss(mask)
  {
    hide HexToRgb, HexContrast, OnWhite;
    if mask == RED {
      RedCrossing(p);
      CrossingDecides(p, mask, 235.6, 236.0, 236, n, brand, out);
    } else if mask == GREEN {
      GreenCrossing(p);
      CrossingDecides(p, mask, 136.6, 137.0, 137, n, brand, out);
    } else if mask == CYAN {
      CyanCrossing(p);
      CrossingDecides(p, mask, 130.7, 131.0, 131, n, brand, out);
    } else if mask == YELLOW {
      YellowCrossing(p);
      CrossingDecides(p, mask, 121.0, 121.4, 121, n, brand, out);
    } else if mask == MAGENTA {
      MagentaCrossing(p);
      CrossingDecides(p, mask, 207.0, 207.4, 207, n, brand, out);
    } else if mask == GREY {
      GreyCrossing(p);
      CrossingDecides(p, mask, 117.0, 117.3, 117, n, brand, out);
    } else {
      BlueStays(p, mask, n, brand, out);
    }
    OnWhiteIs(p, out);
  }

  lemma BlueStays(p: real -> real, mask: Mask, n: int, brand: string, out: string)
    requires IsPow24(p) && 0 <= n <= 255 && !mask.r && !mask.g
    requires HexToRgb(brand) == Some(Flat(mask, n)) && Darkened(p, brand, 4.6, out)
    ensures HexToRgb(out) == Some(Flat(mask, n)) && OnWhite(p, Flat(mask, n)) >= 4.6
  {
    hide HexToRgb, ScaledHex;
    var c := Flat(mask, n);
    BlueAlwaysPasses(p, mask, n, 1.0);
    UnscaledLuminance(p, c);
    if out != brand {
      var lo, hi :| Bracket(p, c, 4.6, lo, hi) && hi - lo == 1.0 / 16777216.0 && out == ScaledHex(c, lo);
      BlueAlwaysPasses(p, mask, n, hi);
    }
  }

  /** The brightest red is darkened to `#ec0000`, on which white text misses the target. */
  lemma BrightRedMissesTarget(p: real -> real, out: string)
    requires IsPow24(p) && Darkened(p, "#ff0000", 4.6, out)
    ensures HexToRgb(out) == Some(Rgb(236, 0, 0)) && HexContrast(p, out, WHITE).Some?
            && HexContrast(p, out, WHITE).value < 4.6
  {
    assert WithoutHash("#ff0000") == "ff0000";
    assert HexToRgb("#ff0000") == Some(Flat(RED, 255));
    hide HexToRgb, HexContrast;
    RedCrossing(p);
    FlatResult(p, RED, 235.6, 236.0, 236, 255, "#ff0000", out);
    FlatColoursReachTarget(p, RED, 255, "#ff0000", out);
  }
}
