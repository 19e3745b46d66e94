/**
 * The pure rectangle arithmetic of the crop component (cropper.js): turning
 * a drag into a crop rectangle that stays inside the canvas, locking it to a
 * fixed aspect ratio, seeding a centred preset rectangle, and re-centring an
 * existing rectangle when the aspect ratio changes.
 */
module CropGeometry {
  import opened Util
  import opened Geometry

  /** A fixed aspect ratio the drag can honour: none (falsy) or positive. */
  predicate ValidRatio(fixedAspectRatio: Option<real>)
  {
    !Truthy(fixedAspectRatio) || fixedAspectRatio.value > 0.0
  }

  // ---------------------------------------------------------------------
  // Drag to rectangle (cropper.js:213-256)
  // ---------------------------------------------------------------------

  /** The canvas edge a drag runs toward along one axis: the far edge when the
      pointer is at or past the anchor, the origin otherwise. */
  function EdgeToward(p: real, start: real, extent: real): real
  {
    if p >= start then extent else 0.0
  }

  /** Room between the anchor and that edge (`maxWidth` / `maxHeight`). */
  function Room(p: real, start: real, extent: real): real
  {
    Abs(EdgeToward(p, start, extent) - start)
  }

  /** One axis of the dragged rectangle before boundary fitting: the drag
      distance cut off at the canvas edge, but never below one pixel. */
  function DragExtent(p: real, start: real, extent: real): (d: real)
    ensures d >= 1.0
    ensures d == 1.0 || (d <= Abs(p - start) && d <= Room(p, start, extent))
  {
    Max(Abs(Clamp(p, start, EdgeToward(p, start, extent)) - start), 1.0)
  }

  /** With the anchor on the canvas, the drag extent is exactly
      `max(min(|p - start|, room), 1)`. */
  lemma DragExtentWithinCanvas(p: real, start: real, extent: real)
    requires 0.0 <= start <= extent
    ensures DragExtent(p, start, extent) == Max(Min(Abs(p - start), Room(p, start, extent)), 1.0)
  {
  }

  /** The aspect-ratio step: when a ratio is fixed, enlarge whichever side is
      too short so that `width / height` is exactly the ratio. */
  function LockAspect(width: real, height: real, fixedAspectRatio: Option<real>): (s: Size)
    requires height > 0.0
    ensures !Truthy(fixedAspectRatio) ==> s == Size(width, height)
    ensures Truthy(fixedAspectRatio) && fixedAspectRatio.value > 0.0 ==>
      && HasAspect(s.width, s.height, fixedAspectRatio.value)
      && s.width >= width && s.height >= height
      && (s.width == width || s.height == height)
    ensures Truthy(fixedAspectRatio) && HasAspect(width, height, fixedAspectRatio.value) ==>
      s == Size(width, height)
  {
    if Truthy(fixedAspectRatio) then
      var ratio := fixedAspectRatio.value;
      var currentAspect := FixFloatingPoint(width / height);
      var w := if currentAspect >= ratio then width else height * ratio;
      var h := if currentAspect >= ratio then w / ratio else height;
      Size(w, h)
    else
      Size(width, height)
  }

  /** `Math.max(width / maxWidth, height / maxHeight, 1)`. A positive number
      divided by a zero room is +Infinity in JavaScript, and so is the max. */
  datatype Factor = Finite(value: real) | Infinite

  function StayInBoundFactor(width: real, height: real, maxWidth: real, maxHeight: real): (f: Factor)
    requires width > 0.0 && height > 0.0 && maxWidth >= 0.0 && maxHeight >= 0.0
    ensures f.Infinite? <==> maxWidth == 0.0 || maxHeight == 0.0
    ensures f.Finite? ==> f.value >= 1.0 && f.value * maxWidth >= width && f.value * maxHeight >= height
  {
    if maxWidth == 0.0 || maxHeight == 0.0 then
      Infinite
    else
      Finite(Max(Max(width / maxWidth, height / maxHeight), 1.0))
  }

  /** Uniform shrink into the room left in the drag direction. Dividing by an
      infinite factor yields zero, so a drag with no room collapses. */
  function FitInBound(width: real, height: real, maxWidth: real, maxHeight: real): (s: Size)
    requires width > 0.0 && height > 0.0 && maxWidth >= 0.0 && maxHeight >= 0.0
    ensures maxWidth == 0.0 || maxHeight == 0.0 ==> s == Size(0.0, 0.0)
    ensures maxWidth > 0.0 && maxHeight > 0.0 ==>
      && 0.0 < s.width <= width && 0.0 < s.height <= height
      && s.width <= maxWidth && s.height <= maxHeight
      && Proportional(width, height, s.width, s.height)
      && (s == Size(width, height) || s.width == maxWidth || s.height == maxHeight)
  {
    match StayInBoundFactor(width, height, maxWidth, maxHeight)
    case Infinite => Size(0.0, 0.0)
    case Finite(f) =>
      ShrinkFacts(width, height, maxWidth, maxHeight, f);
      Size(width / f, height / f)
  }

  lemma ShrinkFacts(width: real, height: real, maxWidth: real, maxHeight: real, f: real)
    requires width > 0.0 && height > 0.0 && maxWidth > 0.0 && maxHeight > 0.0
    requires f == Max(Max(width / maxWidth, height / maxHeight), 1.0)
    ensures 0.0 < width / f <= width && 0.0 < height / f <= height
    ensures width / f <= maxWidth && height / f <= maxHeight
    ensures (width / f) * height == (height / f) * width
    ensures f == 1.0 || width / f == maxWidth || height / f == maxHeight
  {
    DivideByAtLeastOne(width, f);
    DivideByAtLeastOne(height, f);
    assert f * maxWidth >= width by {
      assert (width / maxWidth) * maxWidth == width;
    }
    assert f * maxHeight >= height by {
      assert (height / maxHeight) * maxHeight == height;
    }
    if f == width / maxWidth {
      assert width / f == maxWidth;
    } else if f == height / maxHeight {
      assert height / f == maxHeight;
    }
  }

  lemma DivideByAtLeastOne(x: real, f: real)
    requires x > 0.0 && f >= 1.0
    ensures 0.0 < x / f <= x
  {
    assert (x / f) * f == x;
  }

  /** `_ensureRectDimensionIsInBoundary`: the ratio step followed by the
      shrink into the room between the anchor and the canvas edges. */
  function BoundedDimensions(width: real, height: real, maxWidth: real, maxHeight: real,
                             fixedAspectRatio: Option<real>): (s: Size)
    requires width > 0.0 && height > 0.0 && maxWidth >= 0.0 && maxHeight >= 0.0
    requires ValidRatio(fixedAspectRatio)
    ensures maxWidth == 0.0 || maxHeight == 0.0 ==> s == Size(0.0, 0.0)
    ensures maxWidth > 0.0 && maxHeight > 0.0 ==>
      && 0.0 < s.width <= maxWidth && 0.0 < s.height <= maxHeight
    ensures maxWidth > 0.0 && maxHeight > 0.0 ==>
      if Truthy(fixedAspectRatio) then HasAspect(s.width, s.height, fixedAspectRatio.value)
      else Proportional(width, height, s.width, s.height) && s.width <= width && s.height <= height
  {
    hide LockAspect, FitInBound, HasAspect, Proportional;
    var locked := LockAspect(width, height, fixedAspectRatio);
    var s := FitInBound(locked.width, locked.height, maxWidth, maxHeight);
    ScaledAspect(locked.width, locked.height, s.width, s.height, OrElse(fixedAspectRatio, 1.0));
    s
  }

  /** A uniform scaling of a rectangle with aspect `ratio` keeps that aspect. */
  lemma ScaledAspect(w: real, h: real, w': real, h': real, ratio: real)
    ensures h > 0.0 && HasAspect(w, h, ratio) && Proportional(w, h, w', h') ==> HasAspect(w', h', ratio)
  {
    if h > 0.0 && HasAspect(w, h, ratio) && Proportional(w, h, w', h') {
      assert w' * h == h' * ratio * h;
      assert (w' - h' * ratio) * h == 0.0;
    }
  }

  /** `_calcRectDimensionFromPoint`: the crop rectangle for a drag from the
      anchor `(startX, startY)` to the pointer `(x, y)`. The anchor is always
      a corner of the result, the one opposite the pointer. */
  function RectFromDrag(x: real, y: real, startX: real, startY: real,
                        canvasWidth: real, canvasHeight: real,
                        fixedAspectRatio: Option<real>): (r: Rect)
    requires ValidRatio(fixedAspectRatio)
    ensures r.width >= 0.0 && r.height >= 0.0
    ensures (if x >= startX then r.left else r.left + r.width) == startX
    ensures (if y >= startY then r.top else r.top + r.height) == startY
  {
    var width := DragExtent(x, startX, canvasWidth);
    var height := DragExtent(y, startY, canvasHeight);
    var s := BoundedDimensions(width, height, Room(x, startX, canvasWidth),
                               Room(y, startY, canvasHeight), fixedAspectRatio);
    var left := if x >= startX then startX else startX - s.width;
    var top := if y >= startY then startY else startY - s.height;
    Rect(left, top, s.width, s.height)
  }

  /** With the anchor on the canvas, the dragged rectangle never leaves it,
      whatever the pointer position and whether or not a ratio is fixed. */
  lemma RectFromDragInCanvas(x: real, y: real, startX: real, startY: real,
                             canvasWidth: real, canvasHeight: real,
                             fixedAspectRatio: Option<real>)
    requires ValidRatio(fixedAspectRatio)
    ensures 0.0 <= startX <= canvasWidth && 0.0 <= startY <= canvasHeight ==>
      InCanvas(RectFromDrag(x, y, startX, startY, canvasWidth, canvasHeight, fixedAspectRatio),
               canvasWidth, canvasHeight)
  {
    var width := DragExtent(x, startX, canvasWidth);
    var height := DragExtent(y, startY, canvasHeight);
    var s := BoundedDimensions(width, height, Room(x, startX, canvasWidth),
                               Room(y, startY, canvasHeight), fixedAspectRatio);
    assert s.width <= Room(x, startX, canvasWidth);
    assert s.height <= Room(y, startY, canvasHeight);
  }

  /** A fixed ratio is met exactly whenever there is room in the drag
      direction on both axes; without one the drag's own proportions are
      kept, up to the one-pixel minimum. */
  lemma RectFromDragKeepsRatio(x: real, y: real, startX: real, startY: real,
                               canvasWidth: real, canvasHeight: real,
                               ratio: real)
    requires ratio > 0.0
    requires Room(x, startX, canvasWidth) > 0.0 && Room(y, startY, canvasHeight) > 0.0
    ensures var r := RectFromDrag(x, y, startX, startY, canvasWidth, canvasHeight, Some(ratio));
            r.width > 0.0 && HasAspect(r.width, r.height, ratio)
  {
  }

  /** A worked drag: from (50, 50) up and to the right to (200, 10) on a
      300 x 300 canvas gives the 150 x 40 rectangle whose top is 10. */
  lemma RectFromDragExample()
    ensures RectFromDrag(200.0, 10.0, 50.0, 50.0, 300.0, 300.0, None) == Rect(50.0, 10.0, 150.0, 40.0)
  {
  }

  // ---------------------------------------------------------------------
  // Preset rectangle (cropper.js:388-417)
  // ---------------------------------------------------------------------

  /** `getScale`: the factor that brings `value` down to `originalValue`. */
  function FitScale(value: real, originalValue: real): (s: real)
    requires originalValue > 0.0
    ensures 0.0 < s <= 1.0
    ensures value > originalValue ==> value * s == originalValue
    ensures value <= originalValue ==> s == 1.0
  {
    if value > originalValue then originalValue / value else 1.0
  }

  /** The preset size before the percentage is applied: the canvas's longer
      side at the requested ratio, shrunk first to the canvas width and then
      to the canvas height. */
  function PresetSize(aspectRatio: real, canvasWidth: real, canvasHeight: real): (s: Size)
    requires canvasWidth > 0.0 && canvasHeight > 0.0
    ensures aspectRatio > 0.0 ==>
      && HasAspect(s.width, s.height, aspectRatio)
      && 0.0 < s.width <= canvasWidth && 0.0 < s.height <= canvasHeight
      && (s.width == canvasWidth || s.height == canvasHeight)
  {
    hide FitScale;
    var standardSize := if canvasWidth >= canvasHeight then canvasWidth else canvasHeight;
    var scaleWidth := FitScale(standardSize * aspectRatio, canvasWidth);
    var w1 := standardSize * aspectRatio * scaleWidth;
    var h1 := standardSize * scaleWidth;
    var scaleHeight := FitScale(h1, canvasHeight);
    var w2 := FixFloatingPoint(w1 * scaleHeight);
    var h2 := FixFloatingPoint(h1 * scaleHeight);
    if aspectRatio > 0.0 then
      PresetSizeFacts(aspectRatio, canvasWidth, canvasHeight, standardSize,
                      scaleWidth, w1, h1, scaleHeight, w2, h2);
      Size(w2, h2)
    else
      Size(w2, h2)
  }

  lemma PresetSizeFacts(ar: real, cw: real, ch: real, standardSize: real,
                        sw: real, w1: real, h1: real, sh: real, w2: real, h2: real)
    requires ar > 0.0 && cw > 0.0 && ch > 0.0
    requires standardSize == Max(cw, ch)
    requires 0.0 < sw <= 1.0
    requires standardSize * ar > cw ==> standardSize * ar * sw == cw
    requires standardSize * ar <= cw ==> sw == 1.0
    requires w1 == standardSize * ar * sw && h1 == standardSize * sw
    requires 0.0 < sh <= 1.0
    requires h1 > ch ==> h1 * sh == ch
    requires h1 <= ch ==> sh == 1.0
    requires w2 == w1 * sh && h2 == h1 * sh
    ensures HasAspect(w2, h2, ar)
    ensures 0.0 < w2 <= cw && 0.0 < h2 <= ch
    ensures w2 == cw || h2 == ch
  {
    MulPositive(standardSize, ar);
    ScaleDown(standardSize * ar, sw);
    ScaleDown(standardSize, sw);
    assert w1 == h1 * ar;
    assert 0.0 < w1 <= cw;
    ScaleDown(w1, sh);
    ScaleDown(h1, sh);
    assert w2 == h2 * ar by {
      assert w1 * sh == (h1 * ar) * sh == (h1 * sh) * ar;
    }
    assert h2 <= ch;
    if h1 <= ch {
      assert h2 == h1 && w2 == w1;
      if standardSize * ar <= cw {
        assert h1 == standardSize;
      }
    }
  }

  /** Scaling a positive length by a factor in `(0, 1]` never enlarges it. */
  lemma ScaleDown(x: real, f: real)
    requires x > 0.0 && 0.0 < f <= 1.0
    ensures 0.0 < x * f <= x
  {
    MulPositive(x, f);
    assert x - x * f == x * (1.0 - f);
    assert x * (1.0 - f) >= 0.0;
  }

  /** `_getPresetPropertiesForCropSize`: a rectangle at the requested ratio,
      `sizeInPercent` of the largest that fits, centred on the canvas. */
  function PresetZone(aspectRatio: real, fixAspect: bool, sizeInPercent: real,
                      canvasWidth: real, canvasHeight: real): (z: Zone)
    requires canvasWidth > 0.0 && canvasHeight > 0.0
    ensures z.presetRatio.Some? <==> fixAspect
    ensures fixAspect ==> z.presetRatio.value == aspectRatio
    ensures 2.0 * z.rect.left + z.rect.width == canvasWidth
    ensures 2.0 * z.rect.top + z.rect.height == canvasHeight
    ensures aspectRatio > 0.0 && sizeInPercent > 0.0 ==>
      && HasAspect(z.rect.width, z.rect.height, aspectRatio)
      && 0.0 < z.rect.width <= canvasWidth * sizeInPercent
      && 0.0 < z.rect.height <= canvasHeight * sizeInPercent
      && (z.rect.width == canvasWidth * sizeInPercent || z.rect.height == canvasHeight * sizeInPercent)
    ensures aspectRatio > 0.0 && 0.0 < sizeInPercent <= 1.0 ==>
      InCanvas(z.rect, canvasWidth, canvasHeight)
  {
    var s := PresetSizeInPercent(aspectRatio, sizeInPercent, canvasWidth, canvasHeight);
    Zone(if fixAspect then Some(aspectRatio) else None,
         Rect((canvasWidth - s.width) / 2.0, (canvasHeight - s.height) / 2.0, s.width, s.height))
  }

  /** The preset size scaled down to `sizeInPercent` (cropper.js:407-408). */
  function PresetSizeInPercent(aspectRatio: real, sizeInPercent: real,
                               canvasWidth: real, canvasHeight: real): (s: Size)
    requires canvasWidth > 0.0 && canvasHeight > 0.0
    ensures aspectRatio > 0.0 && sizeInPercent > 0.0 ==>
      && HasAspect(s.width, s.height, aspectRatio)
      && 0.0 < s.width <= canvasWidth * sizeInPercent
      && 0.0 < s.height <= canvasHeight * sizeInPercent
      && (s.width == canvasWidth * sizeInPercent || s.height == canvasHeight * sizeInPercent)
    ensures aspectRatio > 0.0 && 0.0 < sizeInPercent <= 1.0 ==>
      s.width <= canvasWidth && s.height <= canvasHeight
  {
    hide PresetSize;
    var full := PresetSize(aspectRatio, canvasWidth, canvasHeight);
    ScaleByPercent(full.width, full.height, aspectRatio, canvasWidth, canvasHeight, sizeInPercent);
    Size(full.width * sizeInPercent, full.height * sizeInPercent)
  }

  lemma ScaleByPercent(width: real, height: real, aspectRatio: real,
                       canvasWidth: real, canvasHeight: real, p: real)
    requires aspectRatio > 0.0 ==>
      && 0.0 < width <= canvasWidth && 0.0 < height <= canvasHeight
      && HasAspect(width, height, aspectRatio)
      && (width == canvasWidth || height == canvasHeight)
    ensures aspectRatio > 0.0 && p > 0.0 ==>
      && HasAspect(width * p, height * p, aspectRatio)
      && 0.0 < width * p <= canvasWidth * p && 0.0 < height * p <= canvasHeight * p
      && (width * p == canvasWidth * p || height * p == canvasHeight * p)
    ensures aspectRatio > 0.0 && 0.0 < p <= 1.0 ==> width * p <= canvasWidth && height * p <= canvasHeight
  {
    if aspectRatio > 0.0 && p > 0.0 {
      MulMonotone(width, canvasWidth, p);
      MulMonotone(height, canvasHeight, p);
      MulPositive(width, p);
      MulPositive(height, p);
      assert width * p == (height * aspectRatio) * p == (height * p) * aspectRatio;
      if p <= 1.0 {
        MulMonotone(p, 1.0, canvasWidth);
        MulMonotone(p, 1.0, canvasHeight);
      }
    }
  }

  lemma MulMonotone(a: real, b: real, c: real)
    requires a <= b && c >= 0.0
    ensures a * c <= b * c
  {
    assert b * c - a * c == (b - a) * c;
  }

  lemma MulPositive(a: real, b: real)
    requires a > 0.0 && b > 0.0
    ensures a * b > 0.0
  {
  }

  // ---------------------------------------------------------------------
  // Rectangle for a new ratio (cropper.js:427-475)
  // ---------------------------------------------------------------------

  /** The new ratio and the current one lie on opposite sides of square. */
  predicate IsOrientationFlip(newAspect: real, currentAspect: real)
  {
    (newAspect < 1.0 && currentAspect >= 1.0) || (newAspect >= 1.0 && currentAspect < 1.0)
  }

  /** `scale` of `_updateCurrentCropzoneRect`: only a portrait/landscape flip
      may shrink the rectangle, and then just enough that its longer side
      fits within both canvas dimensions. */
  function RatioChangeScale(maxSize: real, newAspect: real, currentAspect: real,
                            canvasWidth: real, canvasHeight: real): (scale: real)
    requires maxSize > 0.0 && canvasWidth > 0.0 && canvasHeight > 0.0
    ensures scale >= 1.0
    ensures !IsOrientationFlip(newAspect, currentAspect) ==> scale == 1.0
    ensures IsOrientationFlip(newAspect, currentAspect) ==>
      maxSize / scale <= canvasWidth && maxSize / scale <= canvasHeight
  {
    var widthRatio := maxSize / canvasWidth;
    var heightRatio := maxSize / canvasHeight;
    if IsOrientationFlip(newAspect, currentAspect) then
      var scale := Max(Max(widthRatio, heightRatio), 1.0);
      FitsAfterScale(maxSize, canvasWidth, scale);
      FitsAfterScale(maxSize, canvasHeight, scale);
      scale
    else
      1.0
  }

  lemma FitsAfterScale(maxSize: real, extent: real, scale: real)
    requires maxSize > 0.0 && extent > 0.0 && scale >= 1.0 && scale >= maxSize / extent
    ensures maxSize / scale <= extent
  {
    assert (maxSize / extent) * extent == maxSize;
    assert scale * extent >= maxSize;
    assert (maxSize / scale) * scale == maxSize;
  }

  /** `_ensureNewCropzoneRectIsinBoundary`: the rectangle at the new ratio
      whose longer side is `maxSize / scale`, kept on the same centre, with
      `top` and `left` clamped between 0 and the canvas extent minus the size. */
  function NewRectInBoundary(cr: Rect, aspectRatio: real, fixAspect: bool,
                             maxSize: real, scale: real,
                             canvasWidth: real, canvasHeight: real): (z: Zone)
    requires scale != 0.0 && canvasWidth > 0.0 && canvasHeight > 0.0
    ensures z.presetRatio.Some? <==> fixAspect
    ensures fixAspect ==> z.presetRatio.value == aspectRatio
    ensures aspectRatio > 0.0 ==> HasAspect(z.rect.width, z.rect.height, aspectRatio)
    ensures (if aspectRatio >= 1.0 then z.rect.width else z.rect.height) == maxSize / scale
    ensures aspectRatio > 0.0 && maxSize / scale > 0.0 ==>
      && 0.0 < z.rect.width && 0.0 < z.rect.height
      && (if aspectRatio >= 1.0 then z.rect.height <= z.rect.width else z.rect.width < z.rect.height)
    ensures Min(0.0, canvasHeight - z.rect.height) <= z.rect.top <= Max(0.0, canvasHeight - z.rect.height)
    ensures Min(0.0, canvasWidth - z.rect.width) <= z.rect.left <= Max(0.0, canvasWidth - z.rect.width)
    ensures scale <= 1.0 && 0.0 <= cr.top + (cr.height - z.rect.height) / 2.0 <= canvasHeight - z.rect.height ==>
      2.0 * z.rect.top + z.rect.height == 2.0 * cr.top + cr.height
    ensures scale <= 1.0 && 0.0 <= cr.left + (cr.width - z.rect.width) / 2.0 <= canvasWidth - z.rect.width ==>
      2.0 * z.rect.left + z.rect.width == 2.0 * cr.left + cr.width
  {
    var widthRatio := if scale > 1.0 then maxSize / canvasWidth else 1.0;
    var heightRatio := if scale > 1.0 then maxSize / canvasHeight else 1.0;
    var size := NewRectSize(aspectRatio, maxSize / scale);
    var topOffset := (cr.height - size.height) / 2.0;
    var leftOffset := (cr.width - size.width) / 2.0;
    Zone(if fixAspect then Some(aspectRatio) else None,
         Rect(Clamp(if widthRatio > 1.0 then 0.0 else cr.left + leftOffset, 0.0, canvasWidth - size.width),
              Clamp(if heightRatio > 1.0 then 0.0 else cr.top + topOffset, 0.0, canvasHeight - size.height),
              size.width, size.height))
  }

  /** The new size: the longer side (width for a landscape or square ratio,
      height for a portrait one) is `longSide`, the other follows the ratio. */
  function NewRectSize(aspectRatio: real, longSide: real): (s: Size)
    ensures (if aspectRatio >= 1.0 then s.width else s.height) == longSide
    ensures aspectRatio > 0.0 ==> HasAspect(s.width, s.height, aspectRatio)
    ensures aspectRatio > 0.0 && longSide > 0.0 ==>
      && 0.0 < s.width && 0.0 < s.height
      && (if aspectRatio >= 1.0 then s.height <= s.width else s.width < s.height)
  {
    if aspectRatio >= 1.0 then
      var height := longSide / aspectRatio;
      LandscapeSides(aspectRatio, longSide, height);
      Size(longSide, height)
    else
      var width := longSide * aspectRatio;
      PortraitSides(aspectRatio, longSide, width);
      Size(width, longSide)
  }

  lemma LandscapeSides(aspectRatio: real, width: real, height: real)
    requires aspectRatio >= 1.0 && height == width / aspectRatio
    ensures height * aspectRatio == width
    ensures width > 0.0 ==> 0.0 < height <= width
  {
    if width > 0.0 {
      assert width - height == height * (aspectRatio - 1.0);
    }
  }

  lemma PortraitSides(aspectRatio: real, height: real, width: real)
    requires aspectRatio < 1.0 && width == height * aspectRatio
    ensures aspectRatio > 0.0 && height > 0.0 ==> 0.0 < width < height
  {
    if aspectRatio > 0.0 && height > 0.0 {
      assert height - width == height * (1.0 - aspectRatio);
      MulPositive(height, 1.0 - aspectRatio);
      MulPositive(height, aspectRatio);
      assert width < height;
    }
  }

  /** `_updateCurrentCropzoneRect`: re-derive the crop rectangle from the
      current one for a new ratio (the current aspect when the ratio is falsy). */
  function RatioChangeZone(cr: Rect, aspectRatio: Option<real>, fixAspect: bool,
                           canvasWidth: real, canvasHeight: real): (z: Zone)
    requires cr.width > 0.0 && cr.height > 0.0 && canvasWidth > 0.0 && canvasHeight > 0.0
    ensures z.presetRatio.Some? <==> fixAspect
    ensures fixAspect ==> z.presetRatio.value == OrElse(aspectRatio, cr.width / cr.height)
    ensures ValidRatio(aspectRatio) ==>
      && HasAspect(z.rect.width, z.rect.height, OrElse(aspectRatio, cr.width / cr.height))
      && 0.0 < z.rect.width && 0.0 < z.rect.height
      && Max(z.rect.width, z.rect.height) <= Max(cr.width, cr.height)
    ensures ValidRatio(aspectRatio) && !IsOrientationFlip(OrElse(aspectRatio, cr.width / cr.height), cr.width / cr.height) ==>
      Max(z.rect.width, z.rect.height) == Max(cr.width, cr.height)
    ensures Min(0.0, canvasHeight - z.rect.height) <= z.rect.top <= Max(0.0, canvasHeight - z.rect.height)
    ensures Min(0.0, canvasWidth - z.rect.width) <= z.rect.left <= Max(0.0, canvasWidth - z.rect.width)
  {
    var currentAspect := cr.width / cr.height;
    var aspect := OrElse(aspectRatio, currentAspect);
    var maxSize := Max(cr.width, cr.height);
    var scale := RatioChangeScale(maxSize, aspect, currentAspect, canvasWidth, canvasHeight);
    DivideByAtLeastOne(maxSize, scale);
    NewRectInBoundary(cr, aspect, fixAspect, maxSize, scale, canvasWidth, canvasHeight)
  }

  /** The clamp keeps the rectangle on the canvas only when it fits: without
      an orientation flip the longer side is kept, so a 200 x 50 rectangle on
      a 200 x 100 canvas becomes 200 x 200 at ratio 1 and reaches 50 above
      the canvas. */
  lemma RatioChangeMayLeaveCanvas()
    ensures InCanvas(Rect(0.0, 25.0, 200.0, 50.0), 200.0, 100.0)
    ensures var r := RatioChangeZone(Rect(0.0, 25.0, 200.0, 50.0), Some(1.0), false, 200.0, 100.0).rect;
      r == Rect(0.0, -50.0, 200.0, 200.0) && !InCanvas(r, 200.0, 100.0)
  {
    assert !IsOrientationFlip(1.0, 200.0 / 50.0);
    assert NewRectSize(1.0, 200.0) == Size(200.0, 200.0);
  }

  /** A rectangle that already has the requested ratio and lies on the canvas
      is a fixed point of the ratio change. */
  lemma RatioChangeFixedPoint(cr: Rect, ratio: real, fixAspect: bool,
                              canvasWidth: real, canvasHeight: real)
    requires canvasWidth > 0.0 && canvasHeight > 0.0 && ratio > 0.0
    requires cr.height > 0.0 && HasAspect(cr.width, cr.height, ratio)
    requires InCanvas(cr, canvasWidth, canvasHeight)
    ensures RatioChangeZone(cr, Some(ratio), fixAspect, canvasWidth, canvasHeight).rect == cr
  {
    RatioChangeKeepsClamped(cr, ratio, fixAspect, canvasWidth, canvasHeight);
  }

  /** The corner positions the ratio change's clamp leaves alone: between 0
      and the canvas extent minus the size, in either order. */
  predicate WithinClampRange(cr: Rect, canvasWidth: real, canvasHeight: real)
  {
    && Min(0.0, canvasWidth - cr.width) <= cr.left <= Max(0.0, canvasWidth - cr.width)
    && Min(0.0, canvasHeight - cr.height) <= cr.top <= Max(0.0, canvasHeight - cr.height)
  }

  /** A rectangle that already has the requested ratio and whose corner the
      clamp leaves alone is a fixed point of the ratio change, on the canvas
      or not. */
  lemma RatioChangeKeepsClamped(cr: Rect, ratio: real, fixAspect: bool,
                                canvasWidth: real, canvasHeight: real)
    requires canvasWidth > 0.0 && canvasHeight > 0.0 && ratio > 0.0
    requires cr.height > 0.0 && HasAspect(cr.width, cr.height, ratio)
    requires WithinClampRange(cr, canvasWidth, canvasHeight)
    ensures RatioChangeZone(cr, Some(ratio), fixAspect, canvasWidth, canvasHeight).rect == cr
  {
    hide NewRectInBoundary, RatioChangeScale;
    MulPositive(cr.height, ratio);
    assert cr.width / cr.height == ratio by {
      assert (cr.height * ratio) / cr.height == ratio;
    }
    var maxSize := Max(cr.width, cr.height);
    assert !IsOrientationFlip(ratio, cr.width / cr.height);
    assert RatioChangeScale(maxSize, ratio, cr.width / cr.height, canvasWidth, canvasHeight) == 1.0;
    NewRectFixedPoint(cr, ratio, fixAspect, canvasWidth, canvasHeight);
  }

  lemma NewRectFixedPoint(cr: Rect, ratio: real, fixAspect: bool,
                          canvasWidth: real, canvasHeight: real)
    requires canvasWidth > 0.0 && canvasHeight > 0.0 && ratio > 0.0
    requires cr.height > 0.0 && HasAspect(cr.width, cr.height, ratio)
    requires WithinClampRange(cr, canvasWidth, canvasHeight)
    ensures NewRectInBoundary(cr, ratio, fixAspect, Max(cr.width, cr.height), 1.0,
                              canvasWidth, canvasHeight).rect == cr
  {
    hide NewRectSize, Clamp;
    var maxSize := Max(cr.width, cr.height);
    assert maxSize / 1.0 == maxSize;
    NewRectSizeFixedPoint(cr.width, cr.height, ratio);
  }

  /** Re-deriving the size of a rectangle that already has the ratio gives it back. */
  lemma NewRectSizeFixedPoint(width: real, height: real, ratio: real)
    requires height > 0.0 && ratio > 0.0 && HasAspect(width, height, ratio)
    ensures NewRectSize(ratio, Max(width, height)) == Size(width, height)
  {
    if ratio >= 1.0 {
      assert width >= height by {
        assert width - height == height * (ratio - 1.0);
        MulNonNegative(height, ratio - 1.0);
      }
      assert width / ratio == height;
    } else {
      assert width < height by {
        PortraitSides(ratio, height, width);
      }
    }
  }

  lemma MulNonNegative(a: real, b: real)
    requires a >= 0.0 && b >= 0.0
    ensures a * b >= 0.0
  {
  }

  /** Applying the same ratio twice is the same as applying it once, also
      when the first result reaches past the canvas. */
  lemma RatioChangeIdempotent(cr: Rect, ratio: real, fixAspect: bool,
                              canvasWidth: real, canvasHeight: real)
    requires canvasWidth > 0.0 && canvasHeight > 0.0 && ratio > 0.0
    requires cr.width > 0.0 && cr.height > 0.0
    ensures var z := RatioChangeZone(cr, Some(ratio), fixAspect, canvasWidth, canvasHeight);
            RatioChangeZone(z.rect, Some(ratio), fixAspect, canvasWidth, canvasHeight) == z
  {
    var z := RatioChangeZone(cr, Some(ratio), fixAspect, canvasWidth, canvasHeight);
    RatioChangeKeepsClamped(z.rect, ratio, fixAspect, canvasWidth, canvasHeight);
  }

  /** The ratio change and the drag's ratio step agree: a rectangle produced
      for a positive ratio is left alone when that ratio is locked again. */
  lemma RatioChangeIsLockFixedPoint(cr: Rect, ratio: real, fixAspect: bool,
                                    canvasWidth: real, canvasHeight: real)
    requires canvasWidth > 0.0 && canvasHeight > 0.0 && ratio > 0.0
    requires cr.width > 0.0 && cr.height > 0.0
    ensures var r := RatioChangeZone(cr, Some(ratio), fixAspect, canvasWidth, canvasHeight).rect;
            LockAspect(r.width, r.height, Some(ratio)) == Size(r.width, r.height)
  {
  }

  // ---------------------------------------------------------------------
  // The ratio change as `_ensureNewCropzoneRectIsinBoundary` means it: the
  // source scales only on a portrait/landscape flip, so without one the new
  // rectangle can outgrow the canvas (`RatioChangeMayLeaveCanvas`). The
  // corrected scale also shrinks a new size that does not fit.
  // ---------------------------------------------------------------------

  /** The scale of the corrected ratio change: the source's on a flip, and
      otherwise the factor that brings the new size within both canvas
      sides, or 1 when it already fits. */
  function FittingScale(maxSize: real, newAspect: real, currentAspect: real,
                        canvasWidth: real, canvasHeight: real): (scale: real)
    requires maxSize > 0.0 && canvasWidth > 0.0 && canvasHeight > 0.0
    ensures scale >= 1.0
    ensures IsOrientationFlip(newAspect, currentAspect) ==>
      scale == RatioChangeScale(maxSize, newAspect, currentAspect, canvasWidth, canvasHeight)
    ensures newAspect > 0.0 ==>
      var s := NewRectSize(newAspect, maxSize / scale);
      s.width <= canvasWidth && s.height <= canvasHeight
    ensures var s := NewRectSize(newAspect, maxSize);
      !IsOrientationFlip(newAspect, currentAspect) && s.width <= canvasWidth && s.height <= canvasHeight ==>
      scale == 1.0
  {
    if IsOrientationFlip(newAspect, currentAspect) then
      var scale := RatioChangeScale(maxSize, newAspect, currentAspect, canvasWidth, canvasHeight);
      DivideByAtLeastOne(maxSize, scale);
      scale
    else
      var s := NewRectSize(newAspect, maxSize);
      var scale := Max(Max(s.width / canvasWidth, s.height / canvasHeight), 1.0);
      NewRectSizeScales(newAspect, maxSize, scale);
      FitsOrNonPositive(s.width, canvasWidth, scale);
      FitsOrNonPositive(s.height, canvasHeight, scale);
      AtMostOneWhenFits(s.width, canvasWidth);
      AtMostOneWhenFits(s.height, canvasHeight);
      scale
  }

  /** Shrinking the longer side by `k` shrinks both sides by `k`. */
  lemma NewRectSizeScales(aspectRatio: real, longSide: real, k: real)
    requires k != 0.0
    ensures NewRectSize(aspectRatio, longSide / k)
         == Size(NewRectSize(aspectRatio, longSide).width / k, NewRectSize(aspectRatio, longSide).height / k)
  {
    if aspectRatio >= 1.0 {
      DivisionsCommute(longSide, k, aspectRatio);
    } else {
      ScaleThenMultiply(longSide, k, aspectRatio);
    }
  }

  lemma DivisionsCommute(x: real, k: real, a: real)
    requires k != 0.0 && a != 0.0
    ensures (x / k) / a == (x / a) / k
  {
    var p := (x / k) / a;
    var q := (x / a) / k;
    assert p * a == x / k;
    assert (p * a) * k == x;
    assert q * k == x / a;
    assert (q * k) * a == x;
    assert p * (a * k) == q * (a * k);
    NonZeroProduct(a, k);
  }

  lemma NonZeroProduct(a: real, k: real)
    requires a != 0.0 && k != 0.0
    ensures a * k != 0.0
  {
  }

  lemma ScaleThenMultiply(x: real, k: real, a: real)
    requires k != 0.0
    ensures (x / k) * a == (x * a) / k
  {
    assert (x / k) * k == x;
    assert ((x / k) * a) * k == x * a;
  }

  lemma FitsOrNonPositive(x: real, extent: real, scale: real)
    requires extent > 0.0 && scale >= 1.0 && scale >= x / extent
    ensures x / scale <= extent
  {
    if x > 0.0 {
      FitsAfterScale(x, extent, scale);
    } else {
      assert x / scale <= 0.0;
    }
  }

  lemma AtMostOneWhenFits(x: real, extent: real)
    requires extent > 0.0
    ensures x <= extent ==> x / extent <= 1.0
  {
    if x <= extent {
      assert (x / extent) * extent == x;
    }
  }

  /** The ratio change with the corrected scale. For a falsy or positive
      ratio the new rectangle has the ratio and lies on the canvas. */
  function RatioChangeZoneInBoundary(cr: Rect, aspectRatio: Option<real>, fixAspect: bool,
                                     canvasWidth: real, canvasHeight: real): (z: Zone)
    requires cr.width > 0.0 && cr.height > 0.0 && canvasWidth > 0.0 && canvasHeight > 0.0
    ensures z.presetRatio.Some? <==> fixAspect
    ensures fixAspect ==> z.presetRatio.value == OrElse(aspectRatio, cr.width / cr.height)
    ensures ValidRatio(aspectRatio) ==>
      && HasAspect(z.rect.width, z.rect.height, OrElse(aspectRatio, cr.width / cr.height))
      && 0.0 < z.rect.width && 0.0 < z.rect.height
      && InCanvas(z.rect, canvasWidth, canvasHeight)
  {
    var currentAspect := cr.width / cr.height;
    var aspect := OrElse(aspectRatio, currentAspect);
    var maxSize := Max(cr.width, cr.height);
    var scale := FittingScale(maxSize, aspect, currentAspect, canvasWidth, canvasHeight);
    DivideByAtLeastOne(maxSize, scale);
    NewRectInBoundary(cr, aspect, fixAspect, maxSize, scale, canvasWidth, canvasHeight)
  }

  /** The correction changes nothing where the source already keeps the new
      rectangle's size within the canvas. */
  lemma InBoundaryAgreesWhenItFits(cr: Rect, aspectRatio: Option<real>, fixAspect: bool,
                                   canvasWidth: real, canvasHeight: real)
    requires cr.width > 0.0 && cr.height > 0.0 && canvasWidth > 0.0 && canvasHeight > 0.0
    requires var r := RatioChangeZone(cr, aspectRatio, fixAspect, canvasWidth, canvasHeight).rect;
      r.width <= canvasWidth && r.height <= canvasHeight
    ensures RatioChangeZoneInBoundary(cr, aspectRatio, fixAspect, canvasWidth, canvasHeight)
         == RatioChangeZone(cr, aspectRatio, fixAspect, canvasWidth, canvasHeight)
  {
    var currentAspect := cr.width / cr.height;
    var aspect := OrElse(aspectRatio, currentAspect);
    var maxSize := Max(cr.width, cr.height);
    var scale := RatioChangeScale(maxSize, aspect, currentAspect, canvasWidth, canvasHeight);
    if !IsOrientationFlip(aspect, currentAspect) {
      assert scale == 1.0;
      assert maxSize / 1.0 == maxSize;
    }
  }

  /** On the example that leaves the canvas as written, the corrected ratio
      change shrinks the square to the canvas height and keeps it on the canvas. */
  lemma InBoundaryExample()
    ensures var r := RatioChangeZoneInBoundary(Rect(0.0, 25.0, 200.0, 50.0), Some(1.0), false, 200.0, 100.0).rect;
      r == Rect(50.0, 0.0, 100.0, 100.0) && InCanvas(r, 200.0, 100.0)
  {
    assert !IsOrientationFlip(1.0, 200.0 / 50.0);
    assert NewRectSize(1.0, 200.0) == Size(200.0, 200.0);
    assert FittingScale(200.0, 1.0, 200.0 / 50.0, 200.0, 100.0) == 2.0;
    assert NewRectSize(1.0, 200.0 / 2.0) == Size(100.0, 100.0);
  }
}
