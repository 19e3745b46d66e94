/**
 * Pixel bytes. Filters read and write the RGBA bytes of a canvas's
 * `ImageData`, a `Uint8ClampedArray`: four bytes per pixel, red, green, blue
 * and alpha. A number written into such an array is stored as the nearest
 * byte, clamped to 0..255, with ties going to the even byte.
 */
module Pixels {
  import opened Util

  type Byte = x: int | 0 <= x <= 255

  /** A channel value in the range a byte can hold. */
  predicate InChannelRange(x: real)
  {
    0.0 <= x <= 255.0
  }

  /** The store into a `Uint8ClampedArray` (the ToUint8Clamp conversion of
      ECMAScript): clamp to 0..255, then round to nearest, ties to even. */
  function ToUint8Clamp(v: real): (r: Byte)
    ensures v <= 0.0 ==> r == 0
    ensures v >= 255.0 ==> r == 255
    ensures InChannelRange(v) ==> Abs(r as real - v) <= 0.5
    ensures InChannelRange(v) && Abs(r as real - v) == 0.5 ==> r % 2 == 0
  {
    if v <= 0.0 then 0
    else if v >= 255.0 then 255
    else
      var f := v.Floor;
      var d := v - f as real;
      if d < 0.5 then f
      else if d > 0.5 then f + 1
      else if f % 2 == 0 then f else f + 1
  }

  /** Storing a byte value gives that byte back. */
  lemma StoreByte(b: Byte)
    ensures ToUint8Clamp(b as real) == b
  {
    assert (b as real).Floor == b;
  }

  /** No byte is closer to an in-range value than the stored one. */
  lemma StoreIsNearest(v: real, c: Byte)
    requires InChannelRange(v)
    ensures Abs(ToUint8Clamp(v) as real - v) <= Abs(c as real - v)
  {
    var r := ToUint8Clamp(v);
    if r != c {
      assert r as real - v <= 0.5 && v - r as real <= 0.5;
      if c < r {
        assert c as real <= r as real - 1.0;
      } else {
        assert c as real >= r as real + 1.0;
      }
    }
  }

  /** Storing is monotone: a larger value never stores as a smaller byte. */
  lemma StoreMonotone(v: real, w: real)
    requires v <= w
    ensures ToUint8Clamp(v) <= ToUint8Clamp(w)
  {
    if 0.0 < v && w < 255.0 {
      var fv := v.Floor;
      var fw := w.Floor;
      assert fv <= fw;
    }
  }
}
