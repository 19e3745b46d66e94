/**
 * The contrast and brightness filters that the toaster and brooklyn filters
 * run over the image after their blend. Both belong to the fabric library,
 * whose code is not part of this model: a filter pipeline receives them as
 * one function from an adjustment and the pixel data to new pixel data.
 */
module Adjustments {
  import opened Pixels

  /** A fabric filter with its one numeric setting. */
  datatype Adjustment = Contrast(contrast: real) | Brightness(brightness: real)

  /** The effect of applying an adjustment filter to pixel data. */
  type Adjuster = (Adjustment, seq<Byte>) -> seq<Byte>

  /** The adjuster that leaves every image as it is. */
  function NoAdjustment(a: Adjustment, img: seq<Byte>): (r: seq<Byte>)
  {
    img
  }

  /** The tail shared by both filters: contrast first, then brightness. */
  function ContrastThenBrightness(img: seq<Byte>, contrast: real, brightness: real, adjust: Adjuster): seq<Byte>
  {
    adjust(Brightness(brightness), adjust(Contrast(contrast), img))
  }
}
