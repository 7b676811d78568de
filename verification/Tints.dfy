/** Reading and rounding colours, light tints, and which text is picked on a colour. */
module Tints {
  import opened Options
  import opened Powers
  import opened Strings
  import opened ColorContrast
  import opened Readability
  import opened Shades

  // ---- Reading ----

  lemma {:induction false} HashOut(a: string, b: string)
    requires '#' !in a
    ensures WithoutHash(a + "#" + b) == a + b && WithoutHash(a) == a
  {
    if a == "" {
      assert a + "#" + b == "#" + b && a + b == b;
    } else {
      assert (a + "#" + b)[1..] == a[1..] + "#" + b && (a + b)[1..] == a[1..] + b;
      HashOut(a[1..], b);
      assert [a[0]] + (a[1..] + b) == a + b;
    }
  }

  /** The first number sign is left out, wherever it is; a second one makes the text no colour. */
  lemma HashIsLeftOut(a: string, b: string)
    requires '#' !in a
    ensures HexToRgb(a + "#" + b) == if '#' in b then None else HexToRgb(a + b)
  {
    HashOut(a, b);
    if '#' in b {
      var i :| 0 <= i < |b| && b[i] == '#';
      assert (a + b)[|a| + i] == '#';
    } else {
      HashOut(a + b, "");
    }
  }

  lemma LowerHexDigit(c: char)
    ensures IsHexDigit(c) <==> IsHexDigit(LowerChar(c))
    ensures IsHexDigit(c) ==> HexValue(LowerChar(c)) == HexValue(c)
  {
  }

  lemma {:induction false} LowerWithoutHash(s: string)
    ensures WithoutHash(Lower(s)) == Lower(WithoutHash(s))
  {
    hide WithoutHash, Lower;
    if s == "" {
      NoHash();
    } else {
      LowerWithoutHash(s[1..]);
      LowerFirst(s);
      FirstHash(s);
      FirstHash(Lower(s));
      if s[0] != '#' {
        LowerAppend([s[0]], WithoutHash(s[1..]));
        LowerOne(s[0]);
      }
    }
  }

  lemma NoHash()
    ensures WithoutHash("") == "" && Lower("") == ""
  {
  }

  lemma FirstHash(s: string)
    requires s != ""
    ensures WithoutHash(s) == if s[0] == '#' then s[1..] else [s[0]] + WithoutHash(s[1..])
  {
  }

  lemma LowerFirst(s: string)
    requires s != ""
    ensures Lower(s) != "" && Lower(s)[0] == LowerChar(s[0]) && Lower(s)[1..] == Lower(s[1..])
    ensures LowerChar(s[0]) == '#' <==> s[0] == '#'
  {
  }

  lemma LowerOne(c: char)
    ensures Lower([c]) == [LowerChar(c)]
  {
  }

  /** Capital and small letters are the same digits. */
  lemma CaseIsIgnored(s: string)
    ensures HexToRgb(Lower(s)) == HexToRgb(s)
  {
    LowerWithoutHash(s);
    var hex := WithoutHash(s);
    forall i | 0 <= i < |hex|
      ensures IsHexDigit(hex[i]) <==> IsHexDigit(Lower(hex)[i])
      ensures IsHexDigit(hex[i]) ==> HexValue(Lower(hex)[i]) == HexValue(hex[i])
    {
      LowerHexDigit(hex[i]);
    }
  }

  // ---- Rounding ----

  /** A channel is rounded to the nearest, a half up. */
  lemma RoundedNearest(v: real)
    ensures 0.0 <= v <= 255.0 ==> -0.5 < Clamped(v) as real - v <= 0.5
    ensures v < 0.0 ==> Clamped(v) == 0
    ensures v > 255.0 ==> Clamped(v) == 255
  {
  }

  // ---- Tints ----

  /** A channel of the colour laid over white at that opacity. */
  function OverWhite(n: int, amount: real): real {
    n as real * amount + 255.0 * (1.0 - amount)
  }

  lemma TintIsOverWhite(n: int, amount: real)
    ensures TintChannel(n, amount) == OverWhite(n, amount)
  {
    assert (n as real - 255.0) * amount == n as real * amount - 255.0 * amount;
  }

  lemma TintedChannel(n: int, low: real, high: real)
    requires 0 <= n <= 255 && 0.0 <= low <= high <= 1.0
    ensures n <= Clamped(TintChannel(n, high)) <= Clamped(TintChannel(n, low)) <= 255
  {
    var d := 255.0 - n as real;
    NonNegative(d, low);
    NonNegative(d, high - low);
    NonNegative(d, 1.0 - high);
    assert d * (high - low) == d * high - d * low && d * (1.0 - high) == d - d * high;
    assert TintChannel(n, low) == 255.0 - d * low && TintChannel(n, high) == 255.0 - d * high;
  }

  /**
    A tint is the colour laid over white, to the nearest 8-bit channel; the less of the colour, the lighter,
    and never darker than it.
  */
  lemma TintReads(hex: string, low: real, high: real)
    requires HexToRgb(hex).Some? && 0.0 <= low <= high <= 1.0
    ensures HexToRgb(Tint(hex, low)).Some? && HexToRgb(Tint(hex, high)).Some?
    ensures var c, more, less := HexToRgb(hex).value, HexToRgb(Tint(hex, high)).value, HexToRgb(Tint(hex, low)).value;
            && NotLighter(c, more) && NotLighter(more, less)
            && more == Rgb(Clamped(OverWhite(c.r, high)), Clamped(OverWhite(c.g, high)), Clamped(OverWhite(c.b, high)))
  {
    hide HexToRgb, RgbToHex, Clamped;
    var c := HexToRgb(hex).value;
    RgbToHexReads(TintChannel(c.r, low), TintChannel(c.g, low), TintChannel(c.b, low));
    RgbToHexReads(TintChannel(c.r, high), TintChannel(c.g, high), TintChannel(c.b, high));
    TintedChannel(c.r, low, high);
    TintedChannel(c.g, low, high);
    TintedChannel(c.b, low, high);
    TintIsOverWhite(c.r, high);
    TintIsOverWhite(c.g, high);
    TintIsOverWhite(c.b, high);
  }

  // ---- The text on a colour ----

  const BLACK := "#000000"

  lemma BlackLuminance(p: real -> real)
    requires IsPow24(p)
    ensures HexToRgb(BLACK) == Some(Rgb(0, 0, 0)) && LuminanceOf(p, Rgb(0, 0, 0)) == 0.0
  {
    assert WithoutHash(BLACK) == "000000";
  }

  /** The dark text is picked exactly where black has at least the contrast of white. */
  lemma PickedText(p: real -> real, bg: string, dark: string, light: string)
    requires IsPow24(p)
    ensures HexToRgb(bg).None? ==> PickReadableTextColor(p, bg, dark, light) == light
    ensures HexToRgb(bg).Some? ==>
              && HexContrast(p, bg, BLACK).Some? && HexContrast(p, bg, WHITE).Some?
              && PickReadableTextColor(p, bg, dark, light)
                 == if HexContrast(p, bg, BLACK).value >= HexContrast(p, bg, WHITE).value then dark else light
  {
    BlackLuminance(p);
    WhiteLuminance(p);
  }

  /** That is exactly from the luminance on at which both are the same, the square root of 1.05 times 0.05 less 0.05. */
  lemma PickedByLuminance(p: real -> real, bg: string, dark: string, light: string)
    requires IsPow24(p) && HexToRgb(bg).Some?
    ensures var d := LuminanceOf(p, HexToRgb(bg).value) + 0.05;
            PickReadableTextColor(p, bg, dark, light) == if d * d >= 1.05 * 0.05 then dark else light
  {
    var l := LuminanceOf(p, HexToRgb(bg).value);
    var d := l + 0.05;
    var a, b := ContrastRatio(l, 0.0), ContrastRatio(l, 1.0);
    assert a == 20.0 * d && b * d == 1.05;
    SameSign(a - b, d);
    assert (a - b) * d == 20.0 * (d * d) - 1.05;
  }

  lemma SameSign(x: real, d: real)
    requires d > 0.0
    ensures x * d >= 0.0 <==> x >= 0.0
  {
    if x >= 0.0 {
      NonNegative(x, d);
    } else {
      Positive(-x, d);
    }
  }

  /** So it is dark on white and light on black. */
  lemma PickedOnWhiteAndBlack(p: real -> real, dark: string, light: string)
    requires IsPow24(p)
    ensures PickReadableTextColor(p, WHITE, dark, light) == dark
    ensures PickReadableTextColor(p, BLACK, dark, light) == light
  {
    BlackLuminance(p);
    WhiteLuminance(p);
    PickedByLuminance(p, WHITE, dark, light);
    PickedByLuminance(p, BLACK, dark, light);
  }
}
