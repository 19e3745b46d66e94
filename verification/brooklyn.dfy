/**
 * The brooklyn filter (src/js/filter/brooklyn.js): an overlay blend of the
 * image with a radial gradient, then fabric's contrast filter at 0.02 and
 * its brightness filter at -0.04. Its inline transform is the overlay of
 * functions.js written out again, so `BlendModes.Overlay` models it. Its
 * `blend` differs from the shared loop only by a leading `transform(0, 0)`
 * whose result is thrown away.
 */
module Brooklyn {
  import opened Pixels
  import opened BlendModes
  import opened Blending
  import opened Adjustments

  const BrooklynContrast: real := 0.02
  const BrooklynBrightness: real := -0.04

  /** `blend` of brooklyn.js: probes the transform at `(0, 0)`, discards the
      value, then runs the shared loop. */
  method BrooklynBlend(bg: array<Byte>, fg: array<Byte>, transform: Transform) returns (result: array<Byte>)
    requires bg != fg
    requires transform.requires(0, 0)
    requires CanBlend(bg[..], fg[..], transform)
    modifies bg
    ensures result == bg
    ensures bg[..] == BlendSeq(old(bg[..]), fg[..], transform)
  {
    var _ := transform(0, 0);
    result := Blend(bg, fg, transform);
  }

  /** `overlaid` holds the image's alpha and, in every colour byte, the
      stored overlay of the gradient byte `g` on the image byte `b`: twice
      their product over 255 below 128, the screen of twice the distances
      from white otherwise. */
  predicate IsOverlayOf(overlaid: seq<Byte>, img: seq<Byte>, gradient: seq<Byte>)
    requires |gradient| >= |img|
  {
    && |overlaid| == |img|
    && (forall k :: 0 <= k < |img| && IsAlpha(k) ==> overlaid[k] == img[k])
    && (forall k :: 0 <= k < |img| && !IsAlpha(k) ==>
          overlaid[k] == ToUint8Clamp(
            if img[k] < 128 then 2.0 * img[k] as real * gradient[k] as real / 255.0
            else 255.0 - 2.0 * (255.0 - gradient[k] as real) * (255.0 - img[k] as real) / 255.0))
  }

  /** The overlay blend of the image with the gradient layer's data. */
  function OverlayBlend(img: seq<Byte>, gradient: seq<Byte>): (r: seq<Byte>)
    requires |img| % 4 == 0 && |gradient| >= |img|
    ensures IsOverlayOf(r, img, gradient)
    ensures forall k :: 0 <= k < |img| && !IsAlpha(k) && img[k] == 0 ==> r[k] == 0
    ensures forall k :: 0 <= k < |img| && !IsAlpha(k) && img[k] == 255 ==> r[k] == 255
  {
    var r := BlendSeq(img, gradient, Overlay);
    forall k | 0 <= k < |img| && !IsAlpha(k)
      ensures r[k] == ToUint8Clamp(
        if img[k] < 128 then 2.0 * img[k] as real * gradient[k] as real / 255.0
        else 255.0 - 2.0 * (255.0 - gradient[k] as real) * (255.0 - img[k] as real) / 255.0)
    {
      assert r[k] == BlendedByte(img, gradient, Overlay, k);
    }
    forall k | 0 <= k < |img| && !IsAlpha(k) && (img[k] == 0 || img[k] == 255)
      ensures r[k] == img[k]
    {
      StoreByte(img[k]);
    }
    r
  }

  /** `applyTo2d` on the image's bytes, given the gradient's data and the
      effect of fabric's adjustment filters: contrast 0.02 and then
      brightness -0.04 applied to the overlaid image. */
  function BrooklynSeq(img: seq<Byte>, gradient: seq<Byte>, adjust: Adjuster): (r: seq<Byte>)
    requires |img| % 4 == 0 && |gradient| >= |img|
    ensures forall overlaid :: IsOverlayOf(overlaid, img, gradient) ==>
      r == adjust(Brightness(-0.04), adjust(Contrast(0.02), overlaid))
  {
    var overlaid := OverlayBlend(img, gradient);
    forall other | IsOverlayOf(other, img, gradient)
      ensures other == overlaid
    {
      OverlayIsUnique(img, gradient, other);
    }
    ContrastThenBrightness(overlaid, BrooklynContrast, BrooklynBrightness, adjust)
  }

  /** Only the overlay blend's result holds the overlay of every colour byte
      and the original alpha. */
  lemma OverlayIsUnique(img: seq<Byte>, gradient: seq<Byte>, overlaid: seq<Byte>)
    requires |img| % 4 == 0 && |gradient| >= |img|
    requires IsOverlayOf(overlaid, img, gradient)
    ensures overlaid == OverlayBlend(img, gradient)
  {
    var r := OverlayBlend(img, gradient);
    forall k | 0 <= k < |img|
      ensures r[k] == overlaid[k]
    {
    }
  }
}
