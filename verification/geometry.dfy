/**
 * Rectangles as the editor stores them: a crop zone or a clip rectangle is
 * a top-left corner plus a width and a height, in canvas pixels.
 */
module Geometry {
  import opened Util

  datatype Size = Size(width: real, height: real)

  datatype Rect = Rect(left: real, top: real, width: real, height: real)

  /** The crop zone object: its rectangle and the preset ratio it records. */
  datatype Zone = Zone(presetRatio: Option<real>, rect: Rect)

  /** The rectangle has no negative extent and lies within `[0, W] x [0, H]`. */
  predicate InCanvas(r: Rect, canvasWidth: real, canvasHeight: real)
  {
    && 0.0 <= r.width && 0.0 <= r.height
    && 0.0 <= r.left && r.left + r.width <= canvasWidth
    && 0.0 <= r.top && r.top + r.height <= canvasHeight
  }

  /** `width / height == ratio`, stated without a division. */
  predicate HasAspect(width: real, height: real, ratio: real)
  {
    width == height * ratio
  }

  /** `w' x h'` is a uniform scaling of `w x h`: `w' / h' == w / h`, stated
      without a division. */
  predicate Proportional(w: real, h: real, w': real, h': real)
  {
    w' * h == h' * w
  }
}
