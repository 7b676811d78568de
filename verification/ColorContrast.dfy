/**
  WCAG contrast over the reals, and the darkening of a colour until white text is readable on it.
  The power 2.4 is a given function `p`, tied down by its defining equation.
*/
module ColorContrast {
  import opened Options
  import opened Powers

  // ---- Luminance and contrast ----

  const KNEE := 0.03928

  function Gamma(c: real): real {
    (c + 0.055) / 1.055
  }

  function Lin(p: real -> real, c: real): real {
    if c <= KNEE then c / 12.92 else p(Gamma(c))
  }

  predicate IsChannel(v: real) {
    0.0 <= v <= 255.0
  }

  function Weighted(r: real, g: real, b: real): real {
    0.2126 * r + 0.7152 * g + 0.0722 * b
  }

  function RelativeLuminance(p: real -> real, r: real, g: real, b: real): (l: real)
    requires IsPow24(p) && IsChannel(r) && IsChannel(g) && IsChannel(b)
    ensures 0.0 <= l <= 1.0
  {
    LinRange(p, r / 255.0);
    LinRange(p, g / 255.0);
    LinRange(p, b / 255.0);
    Weighted(Lin(p, r / 255.0), Lin(p, g / 255.0), Lin(p, b / 255.0))
  }

  lemma LinRange(p: real -> real, c: real)
    requires IsPow24(p) && 0.0 <= c <= 1.0
    ensures 0.0 <= Lin(p, c) <= 1.0
  {
    if c > KNEE {
      PowerGrows(p, Gamma(c), Gamma(c));
    }
  }

  function ContrastRatio(l1: real, l2: real): real
    requires l1 >= 0.0 && l2 >= 0.0
  {
    var lighter := if l1 >= l2 then l1 else l2;
    var darker := if l1 >= l2 then l2 else l1;
    (lighter + 0.05) / (darker + 0.05)
  }

  // ---- Hex colours ----

  datatype Rgb = Rgb(r: int, g: int, b: int) {
    predicate Valid() {
      0 <= r <= 255 && 0 <= g <= 255 && 0 <= b <= 255
    }
  }

  /** `replace('#', '')`: the first one only. */
  function WithoutHash(s: string): string {
    if s == "" then "" else if s[0] == '#' then s[1..] else [s[0]] + WithoutHash(s[1..])
  }

  predicate IsHexDigit(c: char) {
    '0' <= c <= '9' || 'a' <= c <= 'f' || 'A' <= c <= 'F'
  }

  function HexValue(c: char): (n: int)
    requires IsHexDigit(c)
    ensures 0 <= n < 16
  {
    if c <= '9' then c as int - '0' as int
    else if c <= 'F' then c as int - 'A' as int + 10
    else c as int - 'a' as int + 10
  }

  function HexPair(s: string, i: nat): (n: int)
    requires i + 1 < |s| && IsHexDigit(s[i]) && IsHexDigit(s[i + 1])
    ensures 0 <= n <= 255
  {
    16 * HexValue(s[i]) + HexValue(s[i + 1])
  }

  function HexToRgb(bgHex: string): (rgb: Option<Rgb>)
    ensures rgb.Some? ==> rgb.value.Valid()
  {
    var hex := WithoutHash(bgHex);
    if |hex| == 6 && forall i | 0 <= i < 6 :: IsHexDigit(hex[i]) then
      Some(Rgb(HexPair(hex, 0), HexPair(hex, 2), HexPair(hex, 4)))
    else None
  }

  function Digit(n: int): char
    requires 0 <= n < 16
  {
    "0123456789abcdef"[n]
  }

  function Round(v: real): int {
    (v + 0.5).Floor
  }

  function Clamped(v: real): (n: int)
    ensures 0 <= n <= 255
  {
    if Round(v) < 0 then 0 else if Round(v) > 255 then 255 else Round(v)
  }

  function HexByte(n: int): string
    requires 0 <= n <= 255
  {
    [Digit(n / 16), Digit(n % 16)]
  }

  function RgbToHex(r: real, g: real, b: real): string {
    "#" + HexByte(Clamped(r)) + HexByte(Clamped(g)) + HexByte(Clamped(b))
  }

  lemma DigitReads(n: int)
    requires 0 <= n < 16
    ensures IsHexDigit(Digit(n)) && HexValue(Digit(n)) == n
  {
  }

  /** Printing rounds and clamps each channel, and nothing else is lost. */
  lemma RgbToHexReads(r: real, g: real, b: real)
    ensures HexToRgb(RgbToHex(r, g, b)) == Some(Rgb(Clamped(r), Clamped(g), Clamped(b)))
  {
    var s := RgbToHex(r, g, b);
    assert s[0] == '#';
    var hex := HexByte(Clamped(r)) + HexByte(Clamped(g)) + HexByte(Clamped(b));
    assert s[1..] == hex;
    DigitReads(Clamped(r) / 16);
    DigitReads(Clamped(r) % 16);
    DigitReads(Clamped(g) / 16);
    DigitReads(Clamped(g) % 16);
    DigitReads(Clamped(b) / 16);
    DigitReads(Clamped(b) % 16);
  }

  function LuminanceOf(p: real -> real, c: Rgb): (l: real)
    requires IsPow24(p) && c.Valid()
    ensures 0.0 <= l <= 1.0
  {
    RelativeLuminance(p, c.r as real, c.g as real, c.b as real)
  }

  function HexContrast(p: real -> real, a: string, b: string): Option<real>
    requires IsPow24(p)
  {
    var ra, rb := HexToRgb(a), HexToRgb(b);
    if ra.None? || rb.None? then None else Some(ContrastRatio(LuminanceOf(p, ra.value), LuminanceOf(p, rb.value)))
  }

  function PickReadableTextColor(p: real -> real, bgHex: string, darkText: string, lightText: string): string
    requires IsPow24(p)
  {
    var rgb := HexToRgb(bgHex);
    if rgb.None? then lightText
    else
      var l := LuminanceOf(p, rgb.value);
      if ContrastRatio(l, 0.0) >= ContrastRatio(l, 1.0) then darkText else lightText
  }

  // ---- Darkening ----

  lemma ScaledChannel(n: int, t: real)
    requires 0 <= n <= 255 && 0.0 <= t <= 1.0
    ensures IsChannel(n as real * t)
  {
    NonNegative(n as real, t);
    NonNegative(n as real, 1.0 - t);
    assert n as real * (1.0 - t) == n as real - n as real * t;
  }

  function Scaled(n: int, t: real): (v: real)
    requires 0 <= n <= 255 && 0.0 <= t <= 1.0
    ensures IsChannel(v)
  {
    ScaledChannel(n, t);
    n as real * t
  }

  /** The luminance of the colour with its channels scaled by t. */
  function ScaledLuminance(p: real -> real, c: Rgb, t: real): (l: real)
    requires IsPow24(p) && c.Valid() && 0.0 <= t <= 1.0
    ensures 0.0 <= l <= 1.0
  {
    RelativeLuminance(p, Scaled(c.r, t), Scaled(c.g, t), Scaled(c.b, t))
  }

  /** White text reaches the ratio on the colour scaled by t. */
  predicate Passes(p: real -> real, c: Rgb, t: real, target: real)
    requires IsPow24(p) && c.Valid() && 0.0 <= t <= 1.0
  {
    ContrastRatio(ScaledLuminance(p, c, t), 1.0) >= target
  }

  lemma ContrastWithWhite(l: real, target: real)
    requires 0.0 <= l <= 1.0
    ensures ContrastRatio(l, 1.0) == 1.05 / (l + 0.05)
    ensures ContrastRatio(l, 1.0) >= target <==> 1.05 >= target * (l + 0.05)
  {
    var d := l + 0.05;
    var q := 1.05 / d;
    assert q * d == 1.05;
    if q >= target {
      NonNegative(q - target, d);
      assert (q - target) * d == q * d - target * d;
    } else {
      Positive(target - q, d);
      assert (target - q) * d == target * d - q * d;
    }
  }

  lemma BlackPasses(p: real -> real, c: Rgb, target: real)
    requires IsPow24(p) && c.Valid() && target <= 21.0
    ensures Passes(p, c, 0.0, target)
  {
    assert ScaledLuminance(p, c, 0.0) == 0.0;
    ContrastWithWhite(0.0, target);
  }

  function Halved(i: nat): real {
    if i == 0 then 1.0 else Halved(i - 1) / 2.0
  }

  lemma HalvedAllTheWay()
    ensures Halved(24) == 1.0 / 16777216.0
  {
    assert Halved(6) == 1.0 / 64.0;
    assert Halved(12) == 1.0 / 4096.0;
    assert Halved(18) == 1.0 / 262144.0;
  }

  /** At lo white passes, at hi it does not. */
  predicate Bracket(p: real -> real, c: Rgb, target: real, lo: real, hi: real)
    requires IsPow24(p) && c.Valid()
  {
    0.0 <= lo < hi <= 1.0 && Passes(p, c, lo, target) && !Passes(p, c, hi, target)
  }

  /** The colour comes from such a pair of scales, 2^-24 apart. */
  ghost predicate FromSearch(p: real -> real, c: Rgb, target: real, out: string)
    requires IsPow24(p) && c.Valid()
  {
    exists lo, hi :: Bracket(p, c, target, lo, hi) && hi - lo == 1.0 / 16777216.0 && out == ScaledHex(c, lo)
  }

  function ScaledHex(c: Rgb, t: real): string
    requires c.Valid() && 0.0 <= t <= 1.0
  {
    RgbToHex(Scaled(c.r, t), Scaled(c.g, t), Scaled(c.b, t))
  }

  lemma UnscaledLuminance(p: real -> real, c: Rgb)
    requires IsPow24(p) && c.Valid()
    ensures ScaledLuminance(p, c, 1.0) == LuminanceOf(p, c)
  {
  }

  /** No target above 21 can be met: that is the contrast of black. */
  lemma NothingPasses(p: real -> real, c: Rgb, t: real, target: real)
    requires IsPow24(p) && c.Valid() && 0.0 <= t <= 1.0 && target > 21.0
    ensures !Passes(p, c, t, target)
  {
    var d := ScaledLuminance(p, c, t) + 0.05;
    ContrastWithWhite(d - 0.05, target);
    Positive(target - 21.0, d);
    assert (target - 21.0) * d == target * d - 21.0 * d;
  }

  /** Scales the colour to where white passes, 2^-24 below a scale where it does not; black if it never does. */
  method DarkenForWhiteText(p: real -> real, bgHex: string, targetRatio: real := 4.6) returns (out: string)
    requires IsPow24(p)
    ensures HexToRgb(bgHex).None? ==> out == bgHex
    ensures HexToRgb(bgHex).Some? ==>
              var c := HexToRgb(bgHex).value;
              && (Passes(p, c, 1.0, targetRatio) ==> out == bgHex)
              && (!Passes(p, c, 1.0, targetRatio) && targetRatio <= 21.0 ==> FromSearch(p, c, targetRatio, out))
              && (targetRatio > 21.0 ==> out == ScaledHex(c, 0.0))
  {
    var rgb := HexToRgb(bgHex);
    if rgb.None? {
      return bgHex;
    }
    var c := rgb.value;
    UnscaledLuminance(p, c);
    if targetRatio > 21.0 {
      NothingPasses(p, c, 1.0, targetRatio);
    }
    if ContrastRatio(LuminanceOf(p, c), 1.0) >= targetRatio {
      return bgHex;
    }
    if targetRatio <= 21.0 {
      BlackPasses(p, c, targetRatio);
    }
    var lo, hi := 0.0, 1.0;
    for i := 0 to 24
      invariant 0.0 <= lo < hi <= 1.0 && hi - lo == Halved(i)
      invariant if targetRatio <= 21.0 then Bracket(p, c, targetRatio, lo, hi) else lo == 0.0
    {
      var mid := (lo + hi) / 2.0;
      if targetRatio > 21.0 {
        NothingPasses(p, c, mid, targetRatio);
      }
      if ContrastRatio(ScaledLuminance(p, c, mid), 1.0) >= targetRatio {
        lo := mid;
      } else {
        hi := mid;
      }
    }
    HalvedAllTheWay();
    out := ScaledHex(c, lo);
  }

  // ---- The interface's primary colour ----

  function ShadeChannel(n: int, factor: real): real {
    n as real * factor
  }

  /** The colour scaled toward black. */
  function Shade(hex: string, factor: real): string {
    var c := HexToRgb(hex);
    if c.None? then hex
    else RgbToHex(ShadeChannel(c.value.r, factor), ShadeChannel(c.value.g, factor), ShadeChannel(c.value.b, factor))
  }

  function TintChannel(n: int, amount: real): real {
    255.0 + (n as real - 255.0) * amount
  }

  /** The colour laid over white. */
  function Tint(hex: string, amount: real): string {
    var c := HexToRgb(hex);
    if c.None? then hex
    else RgbToHex(TintChannel(c.value.r, amount), TintChannel(c.value.g, amount), TintChannel(c.value.b, amount))
  }

  datatype PrimaryTints = PrimaryTints(bg: string, bgHover: string, border: string, borderHover: string)

  datatype PrimaryShades = PrimaryShades(base: string, hover: string, active: string, text: string,
                                         tints: Option<PrimaryTints>)

  function Or(s: Option<string>, default: string): string {
    if s.Some? && s.value != "" then s.value else default
  }

  const DARK_TEXT := "#0d1117"
  const LIGHT_TEXT := "#ffffff"

  /** What DarkenForWhiteText promises of its result, for a colour it can read and a target white can reach. */
  ghost predicate Darkened(p: real -> real, bgHex: string, target: real, out: string)
    requires IsPow24(p)
  {
    HexToRgb(bgHex).Some?
    && var c := HexToRgb(bgHex).value;
       (Passes(p, c, 1.0, target) && out == bgHex) || FromSearch(p, c, target, out)
  }

  method AccessiblePrimary(p: real -> real, brand: string, isDarkMode: bool, brandHover: Option<string>,
                           brandActive: Option<string>)
    returns (s: PrimaryShades)
    requires IsPow24(p)
    ensures isDarkMode ==> s.base == brand
    ensures isDarkMode ==> s.hover == if brandHover in {None, Some("")} then brand else brandHover.value
    ensures isDarkMode ==> s.active == if brandActive in {None, Some("")} then brand else brandActive.value
    ensures isDarkMode <==> s.tints == None
    ensures !isDarkMode ==> s.hover == Shade(s.base, 0.88) && s.active == Shade(s.base, 0.77)
    ensures s.tints.Some? ==>
              s.tints.value == PrimaryTints(Tint(brand, 0.1), Tint(brand, 0.18), Tint(brand, 0.4), Tint(brand, 0.6))
    ensures s.text == PickReadableTextColor(p, s.base, "#0d1117", "#ffffff")
    ensures !isDarkMode && HexToRgb(brand).Some? ==> Darkened(p, brand, 5.1, s.base)
    ensures !isDarkMode && HexToRgb(brand).None? ==> s.base == brand
  {
    if isDarkMode {
      return PrimaryShades(brand, Or(brandHover, brand), Or(brandActive, brand),
                           PickReadableTextColor(p, brand, DARK_TEXT, LIGHT_TEXT), None);
    }
    var base := DarkenForWhiteText(p, brand, 5.1);
    s := PrimaryShades(base, Shade(base, 0.88), Shade(base, 0.77),
                       PickReadableTextColor(p, base, DARK_TEXT, LIGHT_TEXT),
                       Some(PrimaryTints(Tint(brand, 0.1), Tint(brand, 0.18), Tint(brand, 0.4), Tint(brand, 0.6))));
  }
}
