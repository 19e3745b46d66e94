/**
 * The toaster filter (src/js/filter/toaster.js): a screen blend of the image
 * with a radial gradient, then fabric's contrast filter at 0.17 and its
 * brightness filter at -0.08. The filter's own `blend` is a verbatim copy
 * of the loop in functions.js and delegates to `Blending.Blend`.
 */
module Toaster {
  import opened Pixels
  import opened BlendModes
  import opened Blending
  import opened Adjustments

  const ToasterContrast: real := 0.17
  const ToasterBrightness: real := -0.08

  /** `blend` of toaster.js: the same loop as the shared one, so the same
      in-place rewrite of the colour bytes, returning the background. */
  method ToasterBlend(bg: array<Byte>, fg: array<Byte>, transform: Transform) returns (result: array<Byte>)
    requires bg != fg
    requires CanBlend(bg[..], fg[..], transform)
    modifies bg
    ensures result == bg
    ensures bg[..] == BlendSeq(old(bg[..]), fg[..], transform)
  {
    result := Blend(bg, fg, transform);
  }

  /** `screened` holds the image's alpha and, in every colour byte, the
      stored screen `255 - (255 - g) * (255 - b) / 255` of the gradient byte
      `g` over the image byte `b`. */
  predicate IsScreenOf(screened: seq<Byte>, img: seq<Byte>, gradient: seq<Byte>)
    requires |gradient| >= |img|
  {
    && |screened| == |img|
    && (forall k :: 0 <= k < |img| && IsAlpha(k) ==> screened[k] == img[k])
    && (forall k :: 0 <= k < |img| && !IsAlpha(k) ==>
          screened[k] == ToUint8Clamp(255.0 - (255.0 - gradient[k] as real) * (255.0 - img[k] as real) / 255.0))
  }

  /** The screen blend of the image with the gradient layer's data. */
  function ScreenBlend(img: seq<Byte>, gradient: seq<Byte>): (r: seq<Byte>)
    requires |img| % 4 == 0 && |gradient| >= |img|
    ensures IsScreenOf(r, img, gradient)
    ensures forall k :: 0 <= k < |img| && !IsAlpha(k) ==> img[k] <= r[k] && gradient[k] <= r[k]
  {
    var r := BlendSeq(img, gradient, Screen);
    forall k | 0 <= k < |img| && !IsAlpha(k)
      ensures r[k] == ToUint8Clamp(255.0 - (255.0 - gradient[k] as real) * (255.0 - img[k] as real) / 255.0)
    {
      assert r[k] == BlendedByte(img, gradient, Screen, k);
    }
    forall k | 0 <= k < |img| && !IsAlpha(k)
      ensures img[k] <= r[k] && gradient[k] <= r[k]
    {
      var s := Screen(img[k], gradient[k]);
      StoreMonotone(img[k] as real, s);
      StoreMonotone(gradient[k] as real, s);
      StoreByte(img[k]);
      StoreByte(gradient[k]);
    }
    r
  }

  /** `applyTo2d` on the image's bytes, given the gradient's data and the
      effect of fabric's adjustment filters: contrast 0.17 and then
      brightness -0.08 applied to the screened image. */
  function ToasterSeq(img: seq<Byte>, gradient: seq<Byte>, adjust: Adjuster): (r: seq<Byte>)
    requires |img| % 4 == 0 && |gradient| >= |img|
    ensures forall screened :: IsScreenOf(screened, img, gradient) ==>
      r == adjust(Brightness(-0.08), adjust(Contrast(0.17), screened))
  {
    var screened := ScreenBlend(img, gradient);
    forall other | IsScreenOf(other, img, gradient)
      ensures other == screened
    {
      ScreenIsUnique(img, gradient, other);
    }
    ContrastThenBrightness(screened, ToasterContrast, ToasterBrightness, adjust)
  }

  /** Only the screen blend's result holds the screen of every colour byte
      and the original alpha. */
  lemma ScreenIsUnique(img: seq<Byte>, gradient: seq<Byte>, screened: seq<Byte>)
    requires |img| % 4 == 0 && |gradient| >= |img|
    requires IsScreenOf(screened, img, gradient)
    ensures screened == ScreenBlend(img, gradient)
  {
    var r := ScreenBlend(img, gradient);
    forall k | 0 <= k < |img|
      ensures r[k] == screened[k]
    {
    }
  }

  /** Without the adjustments the filter never darkens a colour byte and
      leaves alpha alone. */
  lemma ToasterLightens(img: seq<Byte>, gradient: seq<Byte>, k: nat)
    requires |img| % 4 == 0 && |gradient| >= |img| && k < |img|
    ensures IsAlpha(k) ==> ToasterSeq(img, gradient, NoAdjustment)[k] == img[k]
    ensures !IsAlpha(k) ==> ToasterSeq(img, gradient, NoAdjustment)[k] >= img[k]
    ensures !IsAlpha(k) ==> ToasterSeq(img, gradient, NoAdjustment)[k] >= gradient[k]
  {
    var r := ScreenBlend(img, gradient);
    assert ToasterSeq(img, gradient, NoAdjustment) == r;
  }
}
