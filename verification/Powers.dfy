/** The power 2.4 over the reals, known only by its defining equation y^5 = u^12. */
module Powers {

  function Pow(x: real, n: nat): real {
    if n == 0 then 1.0 else x * Pow(x, n - 1)
  }

  /** p(u) is u to the power 12/5, for u from 0 to 1. */
  ghost predicate IsPow24(p: real -> real) {
    forall u | 0.0 <= u <= 1.0 :: 0.0 <= p(u) && Pow(p(u), 5) == Pow(u, 12)
  }

  lemma {:induction false} PowAdd(x: real, m: nat, n: nat)
    ensures Pow(x, m + n) == Pow(x, m) * Pow(x, n)
  {
    if m == 0 {
    } else {
      PowAdd(x, m - 1, n);
      Assoc(x, Pow(x, m - 1), Pow(x, n));
    }
  }

  lemma Assoc(x: real, y: real, z: real)
    ensures (x * y) * z == x * (y * z)
  {
  }

  lemma {:induction false} PowTimes(x: real, y: real, n: nat)
    ensures Pow(x * y, n) == Pow(x, n) * Pow(y, n)
  {
    if n == 0 {
      assert Pow(x * y, n) == Pow(x, n) * Pow(y, n) == 1.0;
    } else {
      PowTimes(x, y, n - 1);
      var c, a, b := x * y, Pow(x, n - 1), Pow(y, n - 1);
      assert Pow(c, n) == c * (a * b) == (x * a) * (y * b);
    }
  }

  lemma {:induction false} PowOfPow(x: real, m: nat, n: nat)
    ensures Pow(Pow(x, m), n) == Pow(x, m * n)
  {
    if n == 0 {
      assert m * n == 0;
    } else {
      PowOfPow(x, m, n - 1);
      PowAdd(x, m, m * (n - 1));
      assert m + m * (n - 1) == m * n;
    }
  }

  lemma PowSign(x: real, n: nat)
    requires x >= 0.0
    ensures Pow(x, n) >= 0.0 && (x > 0.0 ==> Pow(x, n) > 0.0) && (x <= 1.0 ==> Pow(x, n) <= 1.0)
  {
    PowNonNegative(x, n);
    if x > 0.0 {
      PowPositive(x, n);
    }
    if x <= 1.0 {
      PowAtMostOne(x, n);
    }
  }

  lemma {:induction false} PowNonNegative(x: real, n: nat)
    requires x >= 0.0
    ensures Pow(x, n) >= 0.0
  {
    if n == 0 {
    } else {
      PowNonNegative(x, n - 1);
      NonNegative(x, Pow(x, n - 1));
    }
  }

  lemma {:induction false} PowPositive(x: real, n: nat)
    requires x > 0.0
    ensures Pow(x, n) > 0.0
  {
    if n == 0 {
    } else {
      PowPositive(x, n - 1);
      Positive(x, Pow(x, n - 1));
    }
  }

  lemma {:induction false} PowAtMostOne(x: real, n: nat)
    requires 0.0 <= x <= 1.0
    ensures Pow(x, n) <= 1.0
  {
    if n == 0 {
    } else {
      PowAtMostOne(x, n - 1);
      PowNonNegative(x, n - 1);
      AtMostOne(x, Pow(x, n - 1));
    }
  }

  lemma NonNegative(x: real, y: real)
    requires x >= 0.0 && y >= 0.0
    ensures x * y >= 0.0
  {
  }

  lemma Positive(x: real, y: real)
    requires x > 0.0 && y > 0.0
    ensures x * y > 0.0
  {
  }

  lemma AtMostOne(x: real, y: real)
    requires 0.0 <= x <= 1.0 && 0.0 <= y <= 1.0
    ensures x * y <= 1.0
  {
    NonNegative(1.0 - x, y);
    assert (1.0 - x) * y == y - x * y;
  }

  lemma ProductGrows(a: real, b: real, c: real, d: real)
    requires 0.0 <= a <= c && 0.0 <= b <= d
    ensures a * b <= c * d
  {
    NonNegative(c - a, b);
    NonNegative(c, d - b);
    assert (c - a) * b == c * b - a * b;
    assert c * (d - b) == c * d - c * b;
  }

  lemma {:induction false} PowGrows(x: real, y: real, n: nat)
    requires 0.0 <= x <= y
    ensures Pow(x, n) <= Pow(y, n)
  {
    if n == 0 {
    } else {
      PowGrows(x, y, n - 1);
      PowSign(x, n - 1);
      ProductGrows(x, Pow(x, n - 1), y, Pow(y, n - 1));
    }
  }

  lemma {:induction false} PowGrowsStrictly(x: real, y: real, n: nat)
    requires 0.0 <= x < y && n > 0
    ensures Pow(x, n) < Pow(y, n)
  {
    PowGrows(x, y, n - 1);
    PowSign(x, n - 1);
    PowSign(y, n - 1);
    var a, b := Pow(x, n - 1), Pow(y, n - 1);
    NonNegative(x, b - a);
    Positive(y - x, b);
    assert x * (b - a) == x * b - x * a;
    assert (y - x) * b == y * b - x * b;
  }

  /** p keeps order, and is decided by comparing fifth powers. */
  lemma PowerAtLeast(p: real -> real, u: real, y: real)
    requires IsPow24(p) && 0.0 <= u <= 1.0 && 0.0 <= y
    ensures p(u) >= y <==> Pow(u, 12) >= Pow(y, 5)
  {
    if p(u) < y {
      PowGrowsStrictly(p(u), y, 5);
    } else {
      PowGrows(y, p(u), 5);
    }
  }

  lemma PowerGrows(p: real -> real, u: real, v: real)
    requires IsPow24(p) && 0.0 <= u <= v <= 1.0
    ensures 0.0 <= p(u) <= p(v) <= 1.0
  {
    PowGrows(u, v, 12);
    PowerAtLeast(p, v, p(u));
    PowSign(v, 12);
    if p(v) > 1.0 {
      PowGrowsStrictly(1.0, p(v), 5);
      PowOne(5);
    }
  }

  lemma {:induction false} PowOne(n: nat)
    ensures Pow(1.0, n) == 1.0
  {
    if n == 0 {
    } else {
      PowOne(n - 1);
    }
  }

  lemma Cancel(x: real, y: real, z: real)
    requires x * z == y * z && z > 0.0
    ensures x == y
  {
    assert (x - y) * z == 0.0;
  }

  /** The fifth root of u, found from its power 2.4. */
  lemma FifthRoot(p: real -> real, u: real) returns (w: real)
    requires IsPow24(p) && 0.0 <= u <= 1.0
    ensures 0.0 <= w && Pow(w, 5) == u && Pow(w, 12) == p(u)
  {
    var y := p(u);
    if u == 0.0 {
      w := 0.0;
      ZeroPower(p);
      assert Pow(0.0, 5) == 0.0 * Pow(0.0, 4) && Pow(0.0, 12) == 0.0 * Pow(0.0, 11);
    } else {
      var b := Pow(u, 7);
      PowSign(u, 7);
      PowSign(y, 3);
      w := Pow(y, 3) / b;
      assert w * b == Pow(y, 3);
      if w < 0.0 {
        Positive(-w, b);
      }
      RootPowers(p, u, w, b);
    }
  }

  lemma ZeroPower(p: real -> real)
    requires IsPow24(p)
    ensures p(0.0) == 0.0
  {
    assert Pow(0.0, 12) == 0.0 * Pow(0.0, 11);
    if p(0.0) > 0.0 {
      PowSign(p(0.0), 5);
    }
  }

  lemma RootPowers(p: real -> real, u: real, w: real, b: real)
    requires IsPow24(p) && 0.0 < u <= 1.0 && b == Pow(u, 7) && b > 0.0 && w * b == Pow(p(u), 3)
    ensures Pow(w, 5) == u && Pow(w, 12) == p(u)
  {
    RootPower5(p(u), u, w, b, 5, 3);
    RootPower12(p(u), u, w, b, 5, 7, 12);
  }

  lemma PowSwap(x: real, m: nat, n: nat)
    ensures Pow(Pow(x, m), n) == Pow(Pow(x, n), m)
  {
    PowOfPow(x, m, n);
    PowOfPow(x, n, m);
    assert m * n == n * m;
  }

  lemma PowSplitsOff(x: real, m: nat, n: nat, k: nat)
    requires m * n == k + 1
    ensures Pow(Pow(x, m), n) == x * Pow(x, k)
  {
    PowOfPow(x, m, n);
    NextPower(x, k);
  }

  /** w^5 b^5 = y^15 = u^36 = u b^5 (the exponents are parameters so that no power is multiplied out) */
  lemma RootPower5(y: real, u: real, w: real, b: real, five: nat, three: nat)
    requires five == 5 && three == 3
    requires Pow(y, five) == Pow(u, 12) && b == Pow(u, 7) && b > 0.0 && w * b == Pow(y, three)
    ensures Pow(w, five) == u
  {
    var k := 7 * five;
    calc {
      Pow(w, five) * Pow(b, five);
      { PowTimes(w, b, five); }
      Pow(Pow(y, three), five);
      { PowSwap(y, three, five); }
      Pow(Pow(u, 12), three);
      { PowSplitsOff(u, 12, three, k); }
      u * Pow(u, k);
      { PowOfPow(u, 7, five); }
      u * Pow(b, five);
    }
    PowPositive(b, five);
    Cancel(Pow(w, five), u, Pow(b, five));
  }

  /** w^12 b^12 = y^36 = y y^35 = y u^84 = y b^12 */
  lemma RootPower12(y: real, u: real, w: real, b: real, five: nat, seven: nat, twelve: nat)
    requires five == 5 && seven == 7 && twelve == 12
    requires Pow(y, five) == Pow(u, twelve) && b == Pow(u, seven) && b > 0.0 && w * b == Pow(y, 3)
    ensures Pow(w, twelve) == y
  {
    var k := five * seven;
    calc {
      Pow(w, twelve) * Pow(b, twelve);
      { PowTimes(w, b, twelve); }
      Pow(Pow(y, 3), twelve);
      { PowSplitsOff(y, 3, twelve, k); }
      y * Pow(y, k);
      { PowOfPow(y, five, seven); }
      y * Pow(Pow(u, twelve), seven);
      { PowSwap(u, twelve, seven); }
      y * Pow(b, twelve);
    }
    PowPositive(b, twelve);
    Cancel(Pow(w, twelve), y, Pow(b, twelve));
  }

  lemma NextPower(x: real, n: nat)
    ensures Pow(x, n + 1) == x * Pow(x, n)
  {
  }

  /** The terms between a^12 and b^12. */
  function Mixed(a: real, b: real, k: nat): real
    requires k <= 12
  {
    Pow(a, k) * Pow(b, 12 - k)
  }

  lemma MixedConvex(a: real, b: real, k: nat)
    requires 0.0 <= a && 0.0 <= b && 1 <= k <= 11
    ensures Mixed(a, b, k - 1) + Mixed(a, b, k + 1) >= 2.0 * Mixed(a, b, k)
  {
    var x, y := Pow(a, k - 1), Pow(b, 11 - k);
    var m := x * y;
    PowSign(a, k - 1);
    PowSign(b, 11 - k);
    NonNegative(x, y);
    assert Pow(b, 12 - k) == b * y && Pow(b, 13 - k) == b * (b * y);
    assert Pow(a, k) == a * x && Pow(a, k + 1) == a * (a * x);
    assert Mixed(a, b, k - 1) == m * (b * b) by { Shuffle(x, y, b, b); }
    assert Mixed(a, b, k) == m * (a * b) by { Shuffle2(x, y, a, b); }
    assert Mixed(a, b, k + 1) == m * (a * a) by { Shuffle3(x, y, a); }
    var s := (a - b) * (a - b);
    assert s == a * a - 2.0 * (a * b) + b * b;
    assert s >= 0.0;
    NonNegative(m, s);
    assert m * s == m * (a * a) - 2.0 * (m * (a * b)) + m * (b * b);
  }

  lemma Shuffle(x: real, y: real, b: real, c: real)
    ensures x * (b * (c * y)) == (x * y) * (b * c)
  {
  }

  lemma Shuffle2(x: real, y: real, a: real, b: real)
    ensures (a * x) * (b * y) == (x * y) * (a * b)
  {
  }

  lemma Shuffle3(x: real, y: real, a: real)
    ensures (a * (a * x)) * y == (x * y) * (a * a)
  {
  }

  /** Weighted means: 12 a^k b^(12-k) lies below k a^12 + (12-k) b^12, for the two weights used here. */
  lemma WeightedMean(a: real, b: real)
    requires 0.0 <= a && 0.0 <= b
    ensures 12.0 * Mixed(a, b, 5) <= 5.0 * Pow(a, 12) + 7.0 * Pow(b, 12)
    ensures 12.0 * Mixed(a, b, 7) <= 7.0 * Pow(a, 12) + 5.0 * Pow(b, 12)
  {
    MixedConvex(a, b, 1);
    MixedConvex(a, b, 2);
    MixedConvex(a, b, 3);
    MixedConvex(a, b, 4);
    MixedConvex(a, b, 5);
    MixedConvex(a, b, 6);
    MixedConvex(a, b, 7);
    MixedConvex(a, b, 8);
    MixedConvex(a, b, 9);
    MixedConvex(a, b, 10);
    MixedConvex(a, b, 11);
    assert Mixed(a, b, 0) == Pow(b, 12) && Mixed(a, b, 12) == Pow(a, 12);
  }

  /** The 12th powers rise below the tangent at the upper end. */
  lemma RiseBelowTangent(a: real, b: real, u: real, v: real)
    requires 0.0 <= a && 0.0 <= b && Pow(a, 5) == u && Pow(b, 5) == v
    ensures Pow(b, 12) - Pow(a, 12) <= 2.4 * (Pow(b, 7) * (v - u))
  {
    WeightedMean(a, b);
    PowAdd(b, 5, 7);
    var t := Pow(b, 7);
    assert Mixed(a, b, 5) == u * t && Pow(b, 12) == v * t;
    assert t * (v - u) == v * t - u * t;
  }

  lemma RootAtMostOne(b: real)
    requires 0.0 <= b && Pow(b, 5) <= 1.0
    ensures b <= 1.0
  {
    if b > 1.0 {
      PowGrowsStrictly(1.0, b, 5);
      PowOne(5);
    }
  }

  /** How fast the power can rise up to v: by at most 2.4 v^1.4, where v^1.4 is the 7th power of v's fifth root. */
  lemma PowerRise(p: real -> real, u: real, v: real, d: real) returns (root: real)
    requires IsPow24(p) && 0.0 <= u <= v <= 1.0 && d == v - u
    ensures 0.0 <= root <= 1.0 && Pow(root, 12) == p(v)
    ensures p(v) - p(u) <= 2.4 * (Pow(root, 7) * d)
  {
    var a := FifthRoot(p, u);
    root := FifthRoot(p, v);
    RootAtMostOne(root);
    RiseBelowTangent(a, root, u, v);
  }

  /** v^1.4 lies below the tangent line of its values against v^2.4 taken at any s. */
  lemma SlopeBelowTangent(b: real, s: real)
    requires 0.0 <= b && 0.0 < s
    ensures 12.0 * (Pow(b, 7) * Pow(s, 5)) <= 7.0 * Pow(b, 12) + 5.0 * Pow(s, 12)
  {
    WeightedMean(b, s);
    assert Mixed(b, s, 7) == Pow(b, 7) * Pow(s, 5);
  }
}
