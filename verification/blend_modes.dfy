/**
 * The per-channel blend modes of src/js/filter/functions.js, plus the screen
 * transform the toaster filter writes inline. Each takes the bottom (image)
 * channel `b` and the top (layer) channel `t`, both bytes read from pixel
 * data, and returns an unrounded number; the byte store rounds it.
 *
 * The range facts are nonlinear; each is proved in a lemma of its own that
 * receives the computed value as a parameter, which keeps every proof
 * obligation down to one product.
 */
module BlendModes {
  import opened Util
  import opened Pixels

  // ---------------------------------------------------------------------
  // Multiply and screen
  // ---------------------------------------------------------------------

  /** `multiply`: `b * t / 255`. */
  function Multiply(b: Byte, t: Byte): (r: real)
    ensures 0.0 <= r <= b as real && r <= t as real
    ensures t == 255 ==> r == b as real
    ensures t == 0 || b == 0 ==> r == 0.0
  {
    var x := b as real;
    var y := t as real;
    var r := (x * y) / 255.0;
    ScaledBelowFirst(x, y, r);
    ScaledBelowFirst(y, x, r);
    r
  }

  /** `x * y / 255` lies between 0 and `x` when both lie in `[0, 255]`. */
  lemma ScaledBelowFirst(x: real, y: real, r: real)
    requires 0.0 <= x <= 255.0 && 0.0 <= y <= 255.0
    requires r == (x * y) / 255.0 || r == (y * x) / 255.0
    ensures 0.0 <= r <= x
  {
    assert x * y == y * x;
    ProductLe(x, y, x, 255.0);
  }

  /** Multiplying is symmetric in its layers. */
  lemma MultiplyCommutes(b: Byte, t: Byte)
    ensures Multiply(b, t) == Multiply(t, b)
  {
    assert b as real * t as real == t as real * b as real;
  }

  /** The inline transform of the toaster filter:
      `255 - (255 - t) * (255 - b) / 255`. */
  function Screen(b: Byte, t: Byte): (r: real)
    ensures Max(b as real, t as real) <= r <= 255.0
    ensures t == 0 ==> r == b as real
    ensures b == 0 ==> r == t as real
    ensures t == 255 || b == 255 ==> r == 255.0
  {
    var nt := 255.0 - t as real;
    var nb := 255.0 - b as real;
    var p := nt * nb / 255.0;
    ScaledBelowFirst(nt, nb, p);
    ScaledBelowFirst(nb, nt, p);
    255.0 - p
  }

  /** Screen is multiply on the inverted channels, inverted back. */
  lemma ScreenIsInvertedMultiply(b: Byte, t: Byte)
    ensures Screen(b, t) == 255.0 - Multiply(255 - b, 255 - t)
  {
    var nt := 255.0 - t as real;
    var nb := 255.0 - b as real;
    assert (255 - b) as real == nb && (255 - t) as real == nt;
    assert nt * nb == nb * nt;
  }

  /** Screening is symmetric in its layers. */
  lemma ScreenCommutes(b: Byte, t: Byte)
    ensures Screen(b, t) == Screen(t, b)
  {
    ScreenIsInvertedMultiply(b, t);
    ScreenIsInvertedMultiply(t, b);
    MultiplyCommutes(255 - b, 255 - t);
  }

  // ---------------------------------------------------------------------
  // Overlay
  // ---------------------------------------------------------------------

  /** `overlay`: multiply for dark bottom channels (below 128), screen for
      light ones, each at double strength. The brooklyn filter's inline
      transform is this same expression. */
  function Overlay(b: Byte, t: Byte): (r: real)
    ensures InChannelRange(r)
    ensures b == 0 ==> r == 0.0
    ensures b == 255 ==> r == 255.0
  {
    var x := b as real;
    var y := t as real;
    if b < 128 then
      var r := 2.0 * x * y / 255.0;
      DarkOverlayInRange(x, y, r);
      r
    else
      var r := 255.0 - 2.0 * (255.0 - y) * (255.0 - x) / 255.0;
      DarkOverlayInRange(255.0 - x, 255.0 - y, 255.0 - r);
      r
  }

  /** `2 * x * y / 255` stays within a byte for `x <= 127`. */
  lemma DarkOverlayInRange(x: real, y: real, r: real)
    requires 0.0 <= x <= 127.0 && 0.0 <= y <= 255.0
    requires r == 2.0 * x * y / 255.0 || r == 2.0 * y * x / 255.0
    ensures 0.0 <= r <= 255.0
  {
    assert 2.0 * x * y == 2.0 * y * x;
    ProductLe(2.0 * x, y, 254.0, 255.0);
  }

  /** Overlay is the multiply of the doubled bottom channel in the dark half
      and the screen of its doubled excess in the light half. */
  lemma OverlayIsMultiplyOrScreen(b: Byte, t: Byte)
    ensures b < 128 ==> Overlay(b, t) == Multiply(2 * b, t)
    ensures b >= 128 ==> Overlay(b, t) == Screen(2 * b - 255, t)
  {
    if b >= 128 {
      var nt := 255.0 - t as real;
      assert 255.0 - (2 * b - 255) as real == 2.0 * (255.0 - b as real);
      assert 2.0 * nt * (255.0 - b as real) == nt * (2.0 * (255.0 - b as real));
    }
  }

  // ---------------------------------------------------------------------
  // Color dodge
  // ---------------------------------------------------------------------

  /** `colorDodge`: `b * 255 / (255 - t)`. The source has no guard for a top
      channel of 255, where the divisor is zero. */
  function ColorDodge(b: Byte, t: Byte): (r: real)
    requires t != 255
    ensures r >= b as real
    ensures t == 0 ==> r == b as real
    ensures b == 0 ==> r == 0.0
  {
    var x := b as real;
    var d := 255.0 - t as real;
    var r := x * 255.0 / d;
    QuotientAntitone(x * 255.0, d, 255.0, r, x);
    r
  }

  /** Dividing a non-negative number by a smaller positive divisor gives a
      larger quotient: `n / d >= n / e` for `0 < d <= e`. */
  lemma QuotientAntitone(n: real, d: real, e: real, q: real, p: real)
    requires n >= 0.0 && 0.0 < d <= e
    requires q == n / d && p == n / e
    ensures p <= q
  {
    DivisionInverse(n, d, q);
    DivisionInverse(n, e, p);
    ProductLe(q, d, q, e);
    FactorSign(q, p, e);
  }

  lemma DivisionInverse(n: real, d: real, q: real)
    requires d != 0.0 && q == n / d
    ensures q * d == n
  {
  }

  /** `q * e >= p * e` with `e > 0` gives `q >= p`. */
  lemma FactorSign(q: real, p: real, e: real)
    requires e > 0.0 && q * e >= p * e
    ensures q >= p
  {
    assert (q - p) * e == q * e - p * e;
  }

  /** A lighter top channel dodges at least as much. */
  lemma DodgeMonotoneInTop(b: Byte, t: Byte, t': Byte)
    requires t <= t' < 255
    ensures ColorDodge(b, t) <= ColorDodge(b, t')
  {
    var n := b as real * 255.0;
    QuotientAntitone(n, 255.0 - t' as real, 255.0 - t as real,
                     n / (255.0 - t' as real), n / (255.0 - t as real));
  }

  // ---------------------------------------------------------------------
  // Soft light
  // ---------------------------------------------------------------------

  /** `s` is the non-negative square root of `x`. */
  predicate IsSqrtOf(sqrt: real -> real, x: real)
  {
    sqrt(x) >= 0.0 && sqrt(x) * sqrt(x) == x
  }

  /** `softLight`. `Math.pow(b, 2)` is written `b * b`, and `Math.sqrt` is
      the parameter `sqrt`. Dark top channels darken the bottom one, light top
      channels lighten it. */
  function SoftLight(b: Byte, t: Byte, sqrt: real -> real): (r: real)
    ensures b == 0 && (t >= 128 ==> sqrt(0.0) == 0.0) ==> r == 0.0
    ensures t < 128 ==> 0.0 <= r <= b as real
    ensures t >= 128 && IsSqrtOf(sqrt, b as real / 255.0) ==> b as real <= r <= 255.0
  {
    var bb := b as real;
    var tt := t as real;
    if t < 128 then
      var r := 2.0 * (tt * bb) / 255.0 + (bb * bb) * (255.0 - 2.0 * tt) / (255.0 * 255.0);
      SoftDarkBounds(bb, tt, r);
      r
    else
      var s := sqrt(bb / 255.0);
      var r := 2.0 * bb * (255.0 - tt) / 255.0 + s * (2.0 * tt - 255.0);
      SoftLightBounds(bb, tt, s, r);
      r
  }

  /** The dark branch is `b` times a weight in `[0, 1]`. */
  lemma SoftDarkBounds(b: real, t: real, r: real)
    requires 0.0 <= b <= 255.0 && 0.0 <= t <= 127.0
    requires r == 2.0 * (t * b) / 255.0 + (b * b) * (255.0 - 2.0 * t) / (255.0 * 255.0)
    ensures 0.0 <= r <= b
  {
    var u := b / 255.0;
    var k := (255.0 - 2.0 * t) / 255.0;
    var p := u * k;
    BoundedByUnit(u, k, p);
    var c := 2.0 * t / 255.0 + p;
    WeightInUnit(2.0 * t / 255.0, p, k, c);
    SoftDarkIsWeighted(b, t, u, k, r, c);
    ScaledBelowFirst(b, 255.0 * c, r);
  }

  lemma BoundedByUnit(u: real, k: real, p: real)
    requires 0.0 <= u <= 1.0 && 0.0 <= k && p == u * k
    ensures 0.0 <= p <= k
  {
    ProductLe(u, k, 1.0, k);
  }

  lemma SoftDarkIsWeighted(b: real, t: real, u: real, k: real, r: real, c: real)
    requires u == b / 255.0 && k == (255.0 - 2.0 * t) / 255.0 && c == 2.0 * t / 255.0 + u * k
    requires r == 2.0 * (t * b) / 255.0 + (b * b) * (255.0 - 2.0 * t) / (255.0 * 255.0)
    ensures r == (b * (255.0 * c)) / 255.0
  {
  }

  /** `0 <= w + p <= 1` when `0 <= p <= k` and `w + k == 1`. */
  lemma WeightInUnit(w: real, p: real, k: real, c: real)
    requires w >= 0.0 && 0.0 <= p <= k && w + k == 1.0 && c == w + p
    ensures 0.0 <= 255.0 * c <= 255.0
  {
  }

  /** The light branch lies between `b` and 255 when `s` is the square root
      of `b / 255`. */
  lemma SoftLightBounds(b: real, t: real, s: real, r: real)
    requires 0.0 <= b <= 255.0 && 128.0 <= t <= 255.0
    requires r == 2.0 * b * (255.0 - t) / 255.0 + s * (2.0 * t - 255.0)
    ensures s >= 0.0 && s * s == b / 255.0 ==> b <= r <= 255.0
  {
    if s >= 0.0 && s * s == b / 255.0 {
      LightBoundsForRoot(b, t, s, r);
    }
  }

  lemma LightBoundsForRoot(b: real, t: real, s: real, r: real)
    requires 0.0 <= b <= 255.0 && 128.0 <= t <= 255.0
    requires s >= 0.0 && s * s == b / 255.0
    requires r == 2.0 * b * (255.0 - t) / 255.0 + s * (2.0 * t - 255.0)
    ensures b <= r <= 255.0
  {
    var u := b / 255.0;
    var k := 2.0 * t - 255.0;
    var m := 510.0 - 2.0 * t;
    SquareRootBelowOne(s, u);
    var um := u * m;
    var uk := u * k;
    var sk := s * k;
    LightBranchTerms(b, t, u, m, r, s, k);
    ProductLe(u, k, s, k);
    ProductLe(s, k, 1.0, k);
    ProductLe(u, m, 1.0, m);
    Distribute(u, m, k);
    LightSum(u, m, k, um, uk, sk, r);
  }

  lemma LightBranchTerms(b: real, t: real, u: real, m: real, r: real, s: real, k: real)
    requires u == b / 255.0 && m == 510.0 - 2.0 * t && k == 2.0 * t - 255.0
    requires r == 2.0 * b * (255.0 - t) / 255.0 + s * (2.0 * t - 255.0)
    ensures r == u * m + s * k
  {
  }

  lemma Distribute(u: real, m: real, k: real)
    ensures u * m + u * k == u * (m + k)
  {
  }

  /** The linear step of the light-branch bound. */
  lemma LightSum(u: real, m: real, k: real, um: real, uk: real, sk: real, r: real)
    requires 0.0 <= u <= 1.0 && m + k == 255.0
    requires r == um + sk && uk <= sk <= k && um <= m && um + uk == u * 255.0
    ensures u * 255.0 <= r <= 255.0
  {
  }

  /** The square root of a number in `[0, 1]` lies between it and 1. */
  lemma SquareRootBelowOne(s: real, u: real)
    requires 0.0 <= u <= 1.0 && s >= 0.0 && s * s == u
    ensures u <= s <= 1.0
  {
    assert (1.0 - s) * (1.0 + s) == 1.0 - s * s;
    NonNegativeFactor(1.0 - s, 1.0 + s);
    assert s <= 1.0;
    ProductLe(s, s, s, 1.0);
    assert s * s <= s * 1.0;
  }

  // ---------------------------------------------------------------------
  // Product facts
  // ---------------------------------------------------------------------

  /** `0 <= a * b <= c * d` whenever `0 <= a <= c` and `0 <= b <= d`. */
  lemma ProductLe(a: real, b: real, c: real, d: real)
    requires 0.0 <= a <= c && 0.0 <= b <= d
    ensures 0.0 <= a * b <= c * d
  {
    NonNegativeProduct(a, b);
    NonNegativeProduct(c - a, b);
    NonNegativeProduct(c, d - b);
    assert c * b - a * b == (c - a) * b;
    assert c * d - c * b == c * (d - b);
  }

  lemma NonNegativeProduct(a: real, b: real)
    requires a >= 0.0 && b >= 0.0
    ensures a * b >= 0.0
  {
  }

  lemma NonNegativeFactor(a: real, b: real)
    requires b > 0.0 && a * b >= 0.0
    ensures a >= 0.0
  {
  }
}
