/**
 * The kelvin filter (src/js/filter/kelvin.js): an overlay blend with a solid
 * `#b77d21` layer, then a color-dodge blend with a solid `#382c34` layer.
 */
module Kelvin {
  import opened Pixels
  import opened BlendModes
  import opened Blending

  /** `#b77d21`, the overlay layer's colour, as red, green, blue. */
  const OverlayColor: seq<Byte> := [0xb7, 0x7d, 0x21]

  /** `#382c34`, the color-dodge layer's colour. */
  const DodgeColor: seq<Byte> := [0x38, 0x2c, 0x34]

  /** `createTopLayer`: the pixel data of a canvas filled with one opaque
      colour. */
  function SolidLayer(pixels: nat, rgb: seq<Byte>): (layer: seq<Byte>)
    requires |rgb| == 3
    ensures |layer| == 4 * pixels
    ensures forall k :: 0 <= k < |layer| ==> layer[k] == if IsAlpha(k) then 255 else rgb[k % 4]
  {
    seq(4 * pixels, k requires 0 <= k < 4 * pixels => if IsAlpha(k) then 255 else rgb[k % 4])
  }

  /** Every byte of the dodge layer that the blend reads is below 255, so
      color dodge never divides by zero here. */
  lemma DodgeLayerIsSafe(img: seq<Byte>)
    requires |img| % 4 == 0
    ensures CanBlend(img, SolidLayer(|img| / 4, DodgeColor), ColorDodge)
  {
    var layer := SolidLayer(|img| / 4, DodgeColor);
    forall k | 0 <= k < |img| && !IsAlpha(k)
      ensures layer[k] != 255
    {
      assert layer[k] == DodgeColor[k % 4];
    }
  }

  /** The filter on the image's bytes. */
  function KelvinSeq(img: seq<Byte>): (r: seq<Byte>)
    requires |img| % 4 == 0
    ensures |r| == |img|
    ensures forall k :: 0 <= k < |img| && IsAlpha(k) ==> r[k] == img[k]
    ensures forall k :: 0 <= k < |img| && !IsAlpha(k) ==>
      r[k] == ToUint8Clamp(ColorDodge(ToUint8Clamp(Overlay(img[k], OverlayColor[k % 4])), DodgeColor[k % 4]))
  {
    var pixels := |img| / 4;
    var overlaid := BlendSeq(img, SolidLayer(pixels, OverlayColor), Overlay);
    DodgeLayerIsSafe(overlaid);
    BlendSeq(overlaid, SolidLayer(pixels, DodgeColor), ColorDodge)
  }

  /** The filter is the overlay blend followed by the dodge blend. */
  lemma KelvinSeqIsTwoBlends(img: seq<Byte>, pixels: nat)
    requires |img| == 4 * pixels
    requires CanBlend(BlendSeq(img, SolidLayer(pixels, OverlayColor), Overlay),
                      SolidLayer(pixels, DodgeColor), ColorDodge)
    ensures KelvinSeq(img) == BlendSeq(BlendSeq(img, SolidLayer(pixels, OverlayColor), Overlay),
                                       SolidLayer(pixels, DodgeColor), ColorDodge)
  {
    hide Overlay, ColorDodge, ToUint8Clamp, BlendSeq;
    assert |img| / 4 == pixels;
  }

  /** Each output pixel depends only on the same input pixel. */
  lemma KelvinIsPixelLocal(img: seq<Byte>, img': seq<Byte>, p: nat)
    requires |img| % 4 == 0 && |img| == |img'| && 4 * p + 4 <= |img|
    requires img[4 * p .. 4 * p + 4] == img'[4 * p .. 4 * p + 4]
    ensures KelvinSeq(img)[4 * p .. 4 * p + 4] == KelvinSeq(img')[4 * p .. 4 * p + 4]
  {
    hide Overlay, ColorDodge, ToUint8Clamp, BlendSeq;
    var r := KelvinSeq(img);
    var r' := KelvinSeq(img');
    forall k | 4 * p <= k < 4 * p + 4
      ensures r[k] == r'[k]
    {
      assert img[k] == img[4 * p .. 4 * p + 4][k - 4 * p];
      assert img'[k] == img'[4 * p .. 4 * p + 4][k - 4 * p];
    }
  }

  /** Kelvin never darkens a channel that overlay leaves at least as bright:
      the dodge step only raises what the overlay step stored. */
  lemma KelvinDodgeRaises(img: seq<Byte>, k: nat)
    requires |img| % 4 == 0 && k < |img| && !IsAlpha(k)
    ensures KelvinSeq(img)[k] >= ToUint8Clamp(Overlay(img[k], OverlayColor[k % 4]))
  {
    var o := ToUint8Clamp(Overlay(img[k], OverlayColor[k % 4]));
    StoreMonotone(o as real, ColorDodge(o, DodgeColor[k % 4]));
    StoreByte(o);
  }

  /** `applyTo2d`: builds the two solid layers the size of the image and
      blends the image with them in place, overlay first. */
  method KelvinApplyTo2d(img: array<Byte>, width: nat, height: nat)
    requires img.Length == 4 * (width * height)
    modifies img
    ensures img[..] == KelvinSeq(old(img[..]))
  {
    hide Overlay, ColorDodge, ToUint8Clamp, BlendSeq, KelvinSeq;
    var pixels := width * height;
    assert img.Length == 4 * pixels && img.Length / 4 == pixels;
    var overlayLayer := new Byte[img.Length](k => if IsAlpha(k) then 255 else OverlayColor[k % 4]);
    var dodgeLayer := new Byte[img.Length](k => if IsAlpha(k) then 255 else DodgeColor[k % 4]);
    assert overlayLayer[..] == SolidLayer(pixels, OverlayColor);
    assert dodgeLayer[..] == SolidLayer(pixels, DodgeColor);
    ghost var original := img[..];
    assert original == old(img[..]);
    var overlaid := Blend(img, overlayLayer, Overlay);
    ghost var afterOverlay := img[..];
    assert afterOverlay == BlendSeq(original, SolidLayer(pixels, OverlayColor), Overlay);
    DodgeLayerIsSafe(afterOverlay);
    var dodged := Blend(img, dodgeLayer, ColorDodge);
    ghost var afterDodge := img[..];
    assert afterDodge == BlendSeq(afterOverlay, SolidLayer(pixels, DodgeColor), ColorDodge);
    KelvinSeqIsTwoBlends(original, pixels);
    assert afterDodge == KelvinSeq(original);
  }
}
