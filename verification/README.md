# tui-image-editor: crop geometry, straighten solver and blend filters in Dafny

This project models the three pieces of arithmetic at the heart of the
editor's crop, straighten and filter features. It proves what they
guarantee.

- **Crop component** (`src/js/component/cropper.js`).
  - A drag from an anchor to the pointer becomes a crop rectangle. The
    anchor is one of its corners, it is locked to a fixed aspect ratio when
    one is set, and it is shrunk uniformly so that it stays on the canvas.
  - A centred preset rectangle is seeded for a ratio and a size fraction.
  - An existing rectangle is re-derived around its position when the ratio
    changes. As written this can leave the canvas; the model records that
    under "## Findings" and states the corrected ratio change and update
    beside the program's own.
  - The small state around these is modelled too: the crop zone, the drag
    anchor and the fixed ratio, with the `start`/`end` guards, the 10-pixel
    move threshold and the "is set" test.
  - Modules `Geometry`, `CropGeometry` (the pure rectangle arithmetic) and
    `CropperComponent` (the state and its handlers).
- **Straighten component** (`src/js/component/straighten.js`).
  - The angle is reduced with JavaScript's `%`. The solver finds the largest
    rectangle with the image's own proportions inside the rotated footprint,
    and the clip rectangle is centred on that footprint.
  - Module `Straighten`.
- **Filters** (`src/js/filter/functions.js`, `kelvin.js`, `toaster.js`,
  `brooklyn.js`).
  - The per-channel blend modes and the toaster filter's inline screen.
  - The in-place RGBA blend loop, which rewrites red, green and blue and
    leaves alpha alone.
  - The kelvin filter end to end, and the toaster and brooklyn filters up
    to fabric's contrast and brightness filters.
  - Modules `Pixels`, `BlendModes`, `Blending`, `Adjustments`, `Kelvin`,
    `Toaster`, `Brooklyn`.

Numbers are Dafny `real`s, so there is no floating-point error.

Pixel data is a sequence of bytes. Writing a number into a
`Uint8ClampedArray` is modelled as ECMAScript's ToUint8Clamp: clamp to
0..255, then round to nearest with ties to even (`Pixels.ToUint8Clamp`).

JavaScript's `null` and truthiness on optional numbers are written out in
`Util`: `Option`, `Truthy`, and `OrElse` for `x || fallback`. So is the
`TypeError` a method call on `null` raises (`Outcome.Throws`). A handler of
the crop component that throws after it has already written a field
returns `Step.Threw` carrying the state as written so far.

Two helpers from the editor's `util` module are not part of this model, so
they are modelled by assumption:

- `clamp(v, a, b)` returns a value between `min(a, b)` and `max(a, b)`, and
  returns `v` itself when `v` already lies between them. The bounds may come
  in either order, as they do at cropper.js:220-221.
- `fixFloatingPoint` is the identity, since exact reals carry no rounding
  noise.

## Model

| member | source | states |
|---|---|---|
| `Util.Clamp` | src/js/component/cropper.js:220-221 | The assumed `clamp`: the result lies between the two bounds in either order, equals the value when the value already lies between them, and is the nearer bound otherwise |
| `CropGeometry.DragExtent` | src/js/component/cropper.js:220-221 | A drag axis is at least 1 pixel long; above 1 it never exceeds the pointer's distance from the anchor or the room between the anchor and the canvas edge in the drag direction |
| `CropGeometry.DragExtentWithinCanvas` | src/js/component/cropper.js:220-221 | With the anchor on the canvas, a drag axis is exactly `max(min(distance, room), 1)` |
| `CropGeometry.LockAspect` | src/js/component/cropper.js:245-249 | Without a truthy ratio the size is unchanged. With a positive one, `width / height` becomes exactly the ratio, neither side shrinks and only one side grows. A size that already has the ratio is kept |
| `CropGeometry.StayInBoundFactor` | src/js/component/cropper.js:251 | The factor is infinite exactly when the room is zero on an axis; otherwise it is at least 1 and scales the room up past both sides |
| `CropGeometry.FitInBound` | src/js/component/cropper.js:251-253 | With no room on some axis the size collapses to 0 x 0. Otherwise the shrink keeps the proportions, never enlarges, fits within the room, and either leaves the size alone or meets the room on one axis |
| `CropGeometry.BoundedDimensions` | src/js/component/cropper.js:236-256 | The ratio step then the shrink: with room on both axes the result is positive and within the room, has exactly the fixed ratio when one is set, and otherwise keeps the drag's proportions without growing |
| `CropGeometry.RectFromDrag` | src/js/component/cropper.js:213-234 | The anchor is the corner of the rectangle opposite the pointer on each axis, and the extents are non-negative |
| `CropGeometry.RectFromDragInCanvas` | src/js/component/cropper.js:225-226 | With the anchor on the canvas, the dragged rectangle lies within `[0, W] x [0, H]` for every pointer position, with or without a fixed ratio |
| `CropGeometry.RectFromDragKeepsRatio` | src/js/component/cropper.js:236-253 | When there is room in the drag direction on both axes, a positive fixed ratio is met exactly by a positive-width rectangle |
| `CropGeometry.RectFromDragExample` | src/js/component/cropper.js:213-234 | A drag from (50, 50) to (200, 10) on a 300 x 300 canvas gives left 50, top 10, width 150, height 40 |
| `CropGeometry.FitScale` | src/js/component/cropper.js:394 | `getScale` lies in `(0, 1]`, brings a larger value exactly down to the bound, and is 1 otherwise |
| `CropGeometry.PresetSize` | src/js/component/cropper.js:393-403 | For a positive ratio the preset size has exactly that ratio, fits the canvas, and touches the canvas width or height |
| `CropGeometry.PresetSizeInPercent` | src/js/component/cropper.js:407-408 | After scaling by a positive `sizeInPercent` the ratio is kept, each side is at most that fraction of the canvas side and one side equals it; with a fraction of at most 1 the size fits the canvas |
| `CropGeometry.PresetZone` | src/js/component/cropper.js:388-417 | The preset zone records the ratio exactly when `fixAspect`, is centred on the canvas. For a positive ratio and a positive fraction it has the ratio and each side is within that fraction of the canvas side; for a positive ratio and a fraction in `(0, 1]` it lies on the canvas |
| `CropGeometry.RatioChangeScale` | src/js/component/cropper.js:432-439 | The scale is at least 1; it is 1 unless the ratio flips between portrait and landscape, and then it makes the longer side fit both canvas dimensions |
| `CropGeometry.NewRectSize` | src/js/component/cropper.js:457-463 | The longer side (width for ratios of at least 1, height otherwise) is the given length, the other follows the ratio, and both are positive with the expected orientation |
| `CropGeometry.NewRectInBoundary` | src/js/component/cropper.js:444-475 | The new zone records the ratio exactly when `fixAspect` and has exactly the ratio with the given longer side. Its top and left are clamped between 0 and the canvas extent minus its size. When no flip shrinks it and the centred position fits, it keeps the old rectangle's centre |
| `CropGeometry.RatioChangeZone` | src/js/component/cropper.js:427-442 | The zone records the ratio exactly when `fixAspect`. For a falsy or positive ratio the re-derived rectangle has the new ratio, or the current aspect when the ratio is falsy; it is then positive, its longer side never grows, and without a portrait/landscape flip the longer side keeps its length. Its left and top are clamped between 0 and the canvas extent minus the new size; without a flip the rectangle may still extend past the canvas |
| `CropGeometry.RatioChangeMayLeaveCanvas` | src/js/component/cropper.js:427-475 | A 200 x 50 rectangle at top 25 that lies on a 200 x 100 canvas, changed to ratio 1, becomes 200 x 200 at top -50, which is not on the canvas |
| `CropGeometry.RatioChangeFixedPoint` | src/js/component/cropper.js:427-475 | A rectangle on the canvas that already has the requested ratio is returned unchanged |
| `CropGeometry.RatioChangeKeepsClamped` | src/js/component/cropper.js:427-475 | A rectangle that already has a positive requested ratio and whose corner lies within the clamp's range is returned unchanged, on the canvas or not |
| `CropGeometry.RatioChangeIdempotent` | src/js/component/cropper.js:427-475 | For a positive ratio, re-applying it to any result, including one that reaches past the canvas, gives the same zone again |
| `CropGeometry.RatioChangeIsLockFixedPoint` | src/js/component/cropper.js:457-463 | The drag's ratio-locking step (cropper.js:245-249) leaves a ratio-change result for a positive ratio untouched, so the two code paths agree on what "has the ratio" means |
| `CropGeometry.FittingScale` | src/js/component/cropper.js:432-439 | The corrected scale is at least 1 and equals the source's on a portrait/landscape flip. For a positive ratio the new size fits both canvas sides, and without a flip it is 1 whenever the unscaled new size already fits |
| `CropGeometry.RatioChangeZoneInBoundary` | src/js/component/cropper.js:427-475 | The corrected ratio change records the ratio exactly when `fixAspect`. For a falsy or positive ratio it has the new ratio, is positive and lies on the canvas |
| `CropGeometry.InBoundaryAgreesWhenItFits` | src/js/component/cropper.js:432-439 | Wherever the source's new rectangle is no wider and no taller than the canvas, the corrected ratio change gives the same zone |
| `CropGeometry.InBoundaryExample` | src/js/component/cropper.js:432-439 | The 200 x 50 rectangle that leaves the canvas as written becomes a 100 x 100 square at left 50, top 0, on the canvas |
| `CropperComponent.IsCropzoneSet` | src/js/component/cropper.js:258-260 | A set zone exists; the zones `start` and a falsy ratio install are never set; a zone of non-negative size is set exactly when it lies on some canvas |
| `CropperComponent.Start` | src/js/component/cropper.js:84-113 | With a zone already present nothing changes. Otherwise a zone appears that does not count as set and has no preset ratio. The anchor and the fixed ratio are untouched |
| `CropperComponent.End` | src/js/component/cropper.js:118-137 | Afterwards there is no zone; without one it is a no-op; the anchor and the fixed ratio are untouched |
| `CropperComponent.StartEndIdempotent` | src/js/component/cropper.js:84-137 | Starting twice is starting once, ending twice is ending once, and ending after a start is ending |
| `CropperComponent.OnMouseDown` | src/js/component/cropper.js:163-182 | A press on an object changes nothing; a press on empty canvas moves the anchor to the pointer and nothing else |
| `CropperComponent.MovedBeyondThreshold` | src/js/component/cropper.js:195 | A pointer more than 10 pixels from the anchor on either axis has moved; one that has moved is more than 5 pixels away on some axis; the anchor itself has not moved |
| `CropperComponent.OnMouseMove` | src/js/component/cropper.js:189-204 | Within the 10-pixel Manhattan threshold nothing changes. Beyond it, a missing zone throws and leaves the state as it was. Otherwise the zone keeps its preset ratio, its rectangle keeps the anchor as the corner opposite the pointer, and it lies on the canvas when the anchor does. The anchor and the fixed ratio never change |
| `CropperComponent.GetCropzoneRect` | src/js/component/cropper.js:314-327 | Throws without a zone; returns the zone's rectangle exactly when the zone is valid, `null` otherwise |
| `CropperComponent.SetCropzoneRect` | src/js/component/cropper.js:335-339 | Records the ratio only when `fixAspect`, also when it then throws for a missing zone. A falsy ratio installs `DEFAULT_OPTION`, which is not set. A truthy ratio installs a centred preset zone that records it when `fixAspect`. For a positive ratio and a positive fraction (by default one half) the zone has the ratio; with a fraction in `(0, 1]` it also lies inside the canvas and is set |
| `CropperComponent.Render` | src/js/component/cropper.js:363-378 | Records the ratio exactly when `fixAspect` before anything can throw. It throws when there is no zone or the zone factory throws, leaving the zone as it was; otherwise it installs the computed zone |
| `CropperComponent.UpdateCropzoneRect` | src/js/component/cropper.js:346-352 | An unset zone falls back to a preset with ratio `aspectRatio or 1`, which for a falsy or positive ratio is on the canvas and set. A set zone is reshaped to the ratio, or to its own aspect when the ratio is falsy, with its corner within the clamp's range; it is on the canvas and stays set only when the reshaped size fits the canvas. It throws exactly when there is no zone or the set zone is invalid; the recorded ratio is written in either case |
| `CropperComponent.UpdateMayUnsetZone` | src/js/component/cropper.js:346-352 | A set 200 x 50 zone at top 25 on a 200 x 100 canvas, updated to ratio 1, becomes 200 x 200 at top -50 and is no longer set, so the same update again installs the centred 50 x 50 preset |
| `CropperComponent.PresetOfSquareOnWideCanvas` | src/js/component/cropper.js:388-417 | The square preset at half a 200 x 100 canvas is 50 x 50 at left 75, top 25 |
| `CropperComponent.UpdateCropzoneRectCorrected` | src/js/component/cropper.js:346-352 | The update with the corrected ratio change throws in the same cases, records the same ratio and equals the program's update on an unset zone; every successful update with a falsy or positive ratio leaves a set zone on the canvas with the ratio |
| `CropperComponent.CorrectedUpdateAgreesWhenItFits` | src/js/component/cropper.js:346-352 | Wherever the program's reshaped rectangle fits the canvas, the corrected update gives the same result |
| `CropperComponent.CorrectedUpdateKeepsZoneSet` | src/js/component/cropper.js:346-352 | On the zone that the program unsets, the corrected update installs a 100 x 100 square at left 50, top 0, which is set |
| `CropperComponent.FailedUpdateLocksRatio` | src/js/component/cropper.js:346-349 | Updating with `fixAspect` when there is no zone throws, yet the ratio `aspectRatio or 1` is already recorded |
| `CropperComponent.FirstUpdateAfterStart` | src/js/component/cropper.js:346-349 | The first update after `start` installs a zone that is set and has the requested ratio, or a square one |
| `Straighten.ReduceAngle` | src/js/component/straighten.js:84 | `angle %= 360` keeps the sign of the angle, stays within one turn, and differs from the angle by whole turns |
| `Straighten.ReduceWithinTurn` | src/js/component/straighten.js:84 | An angle strictly within one turn is its own reduction |
| `Straighten.ReduceAngleIdempotent` | src/js/component/straighten.js:84 | Reducing twice is reducing once |
| `Straighten.Radians` | src/js/component/straighten.js:145 | The angle in radians is non-negative, so the sign of the angle is dropped, and it is 0 for a zero angle |
| `Straighten.PortraitHeight` | src/js/component/straighten.js:143-147 | The portrait branch's footprint height `originalWidth / (rotatedWidth / rotatedHeight)` satisfies `h * rotatedWidth == originalWidth * rotatedHeight` and is positive for positive sizes |
| `Straighten.LargestRectWithSameAspect` | src/js/component/straighten.js:142-154 | The inscribed rectangle has the original proportions; with positive sizes and a positive divisor both sides are positive |
| `Straighten.LargestRectIsEven` | src/js/component/straighten.js:145 | The angle and its negation give the same rectangle |
| `Straighten.LargestRectAtZero` | src/js/component/straighten.js:146-148 | Unrotated, the rectangle is the image itself in both the portrait and the landscape branch |
| `Straighten.Straighten` | src/js/component/straighten.js:83-123 | The stored `_angle` is the reduced angle and is what the call returns; the clip rectangle is centred in the straightened footprint and has the image's proportions |
| `Straighten.StraightenReduced` | src/js/component/straighten.js:83-93 | Straightening by an angle and by its reduction give the same state and result |
| `Straighten.StraightenZeroIsInitial` | src/js/component/straighten.js:20-31 | Straightening an unrotated image by 0 restores the state the constructor sets up from the canvas size, assuming the image measured at 0 degrees has the canvas's size |
| `Pixels.ToUint8Clamp` | src/js/filter/functions.js:13-17 | A store clamps to 0..255 and, in range, lands within one half of the value, ties going to the even byte |
| `Pixels.StoreByte` | src/js/filter/functions.js:13-17 | Storing a byte value gives the byte back |
| `Pixels.StoreIsNearest` | src/js/filter/functions.js:13-17 | No byte lies closer to an in-range value than the stored one |
| `Pixels.StoreMonotone` | src/js/filter/functions.js:13-17 | A larger value never stores as a smaller byte |
| `BlendModes.Multiply` | src/js/filter/functions.js:40-42 | The result lies between 0 and both inputs; 255 is the identity and 0 absorbs |
| `BlendModes.MultiplyCommutes` | src/js/filter/functions.js:40-42 | Multiply is symmetric in its layers |
| `BlendModes.Screen` | src/js/filter/toaster.js:33-34 | The toaster transform lies between the larger input and 255; 0 is the identity and 255 absorbs |
| `BlendModes.ScreenIsInvertedMultiply` | src/js/filter/toaster.js:34 | Screen is multiply on the inverted channels, inverted back |
| `BlendModes.ScreenCommutes` | src/js/filter/toaster.js:34 | Screen is symmetric in its layers |
| `BlendModes.Overlay` | src/js/filter/functions.js:50-54 | Overlay stays in `[0, 255]`, keeps black at 0 and white at 255 (the brooklyn inline transform at brooklyn.js:34-36 is the same expression) |
| `BlendModes.OverlayIsMultiplyOrScreen` | src/js/filter/functions.js:50-54 | Overlay is the multiply of the doubled dark channel, and the screen of the doubled excess of a light one |
| `BlendModes.ColorDodge` | src/js/filter/functions.js:30-32 | For a top channel below 255 the dodge never darkens, a black top is the identity and a black bottom stays black |
| `BlendModes.DodgeMonotoneInTop` | src/js/filter/functions.js:30-32 | A lighter top layer dodges at least as much |
| `BlendModes.SoftLight` | src/js/filter/functions.js:62-65 | A black bottom stays black in both branches (the light one given `sqrt(0) = 0`); the dark branch never lightens; the light branch, given a true square root, never darkens and stays within 255 |
| `Blending.BlendSeq` | src/js/filter/functions.js:10-22 | The blended data has the background's length, keeps every alpha byte, and stores the transform of the two bytes at the same index in every colour byte |
| `Blending.BlendIsPixelLocal` | src/js/filter/functions.js:13-17 | Each output pixel depends only on the same background pixel |
| `Blending.Blend` | src/js/filter/functions.js:10-22 | The loop rewrites the background in place to exactly the blended data and returns that same buffer; only the background is modified |
| `Kelvin.SolidLayer` | src/js/filter/kelvin.js:32-43 | A solid layer has four bytes per pixel, the colour's red, green and blue, and opaque alpha |
| `Kelvin.DodgeLayerIsSafe` | src/js/filter/kelvin.js:24 | Every colour byte of the `#382c34` layer is below 255, so the dodge blend is defined on any image |
| `Kelvin.KelvinSeq` | src/js/filter/kelvin.js:20-30 | Alpha is unchanged; each colour byte is the stored dodge, by `#382c34`, of the stored overlay, by `#b77d21`, of the original byte |
| `Kelvin.KelvinSeqIsTwoBlends` | src/js/filter/kelvin.js:28-29 | The filter is the overlay blend followed by the dodge blend, in that order |
| `Kelvin.KelvinIsPixelLocal` | src/js/filter/kelvin.js:20-30 | Each output pixel depends only on that input pixel |
| `Kelvin.KelvinDodgeRaises` | src/js/filter/kelvin.js:29 | The dodge step never darkens what the overlay step stored |
| `Kelvin.KelvinApplyTo2d` | src/js/filter/kelvin.js:20-30 | Building the two layers and blending in place leaves exactly the filtered image |
| `Toaster.ToasterBlend` | src/js/filter/toaster.js:57-69 | The toaster's copy of the loop rewrites the background to the blended data and returns it |
| `Toaster.ScreenBlend` | src/js/filter/toaster.js:33-34 | The screened image keeps alpha and stores `255 - (255 - g) * (255 - b) / 255` in every colour byte, which is at least the image's and the gradient's byte |
| `Toaster.ScreenIsUnique` | src/js/filter/toaster.js:33-34 | Any data holding the original alpha and the stored screen of every colour byte is the screen blend's result |
| `Toaster.ToasterSeq` | src/js/filter/toaster.js:27-38 | The filter's output is contrast 0.17 and then brightness -0.08 applied to exactly the data holding the stored screen of each colour byte and the original alpha |
| `Toaster.ToasterLightens` | src/js/filter/toaster.js:33-34 | Without the adjustments the filter keeps alpha and never darkens a colour byte below the image or the gradient |
| `Brooklyn.BrooklynBlend` | src/js/filter/brooklyn.js:59-75 | The discarded `transform(0, 0)` leaves the result equal to the shared blend; the background is returned |
| `Brooklyn.OverlayBlend` | src/js/filter/brooklyn.js:33-36 | The overlaid image keeps alpha and stores the inline overlay in every colour byte, so black colour bytes stay black and white ones white |
| `Brooklyn.OverlayIsUnique` | src/js/filter/brooklyn.js:33-36 | Any data holding the original alpha and the stored overlay of every colour byte is the overlay blend's result |
| `Brooklyn.BrooklynSeq` | src/js/filter/brooklyn.js:27-40 | The filter's output is contrast 0.02 and then brightness -0.04 applied to exactly the data holding the stored overlay of each colour byte and the original alpha |

## Left out

- Drawing and events through fabric.js are left out: adding and removing canvas objects, the active object, listeners, cursors, `renderAll`, clip-path assignment, and the Shift-key state. They are calls into a library whose code is not part of this model.
- `getCroppedImageData` is left out: it only calls the canvas's `toDataURL`.
- The `Cropzone` extension is not part of this model. `Cropzone.isValid` is the parameter `isValid`. The style options merged into a new zone (`CROPZONE_DEFAULT_OPTIONS`, `cropSelectionStyle`) are assumed not to override its geometry.
- The editor's `util` module is not part of this model. `clamp` and `fixFloatingPoint` are modelled by the assumptions stated above.
- The drag anchor starts as `null`. JavaScript arithmetic reads that as 0, and `Initial` stores 0.
- CropGeometry.BoundedDimensions: negative fixed ratios are excluded by `ValidRatio`. The source accepts any truthy ratio, and a negative one gives negative extents that the model does not follow.
- CropGeometry.RectFromDrag: it shares the `ValidRatio` requirement, so a negative fixed ratio is outside the model.
- CropGeometry.RectFromDragInCanvas: it shares the `ValidRatio` requirement, so its on-canvas guarantee is stated for non-negative fixed ratios only.
- CropperComponent.OnMouseMove: it shares the `ValidRatio` requirement for the same reason.
- CropGeometry.PresetZone: for a negative ratio or fraction the source builds a zone of negative extent; the ratio and size bounds are promised only for positive ones, and the on-canvas bound only for a fraction in `(0, 1]`.
- CropperComponent.SetCropzoneRect: a truthy negative ratio or a fraction above 1 yields a zone off the canvas, as in the source; the ratio and on-canvas promises carry the same conditions as `PresetZone`.
- CropGeometry.RatioChangeZone: for a negative ratio the source computes negative extents; the ratio, positivity and size bounds are promised only for a falsy or positive ratio.
- CropperComponent.UpdateCropzoneRect: for a set and valid zone it requires positive extents. The source divides by the height without a guard. The requirement stands in for `Cropzone.isValid`, which is taken to accept only zones of positive size.
- Blending.Blend: it requires the background and the foreground to be distinct buffers. Every caller passes a freshly built layer.
- BlendModes.ColorDodge: it requires a top byte below 255. The source divides by `255 - t` without a guard, and in JavaScript that yields Infinity or NaN.
- The blend modes take bytes, not arbitrary numbers. The source only ever applies them to bytes read from a `Uint8ClampedArray`, and on fractional inputs overlay can leave `[0, 255]` (`b = 127.9`, `t = 255` gives 255.8).
- `Math.sqrt` in soft light is a parameter, so the light branch's bounds hold only given a true square root. `Math.pow(b, 2)` is written as `b * b`.
- `Math.sin` and `Math.cos` are parameters constrained only by their values at 0. `Math.PI` is its 16-digit decimal.
- The rotated sizes that `_rotateAndGetSize` reads from fabric after rotating the image are a parameter.
- Straighten.StraightenZeroIsInitial: the constructor reads the canvas size and `Straighten` reads the image's rotated size, and nothing in the model ties the two; the lemma assumes they agree at 0 degrees.
- Straighten.LargestRectWithSameAspect: it states the proportions and positivity of the inscribed rectangle, not that it is the largest that fits. That is a trigonometric fact about the footprint, outside what uninterpreted `sin` and `cos` can show.
- The solver's divisions (`Solvable`) are preconditions. The source guards none of them.
- The straighten grid and the `start`/`end` of the straighten component only render and are left out.
- The gradients of toaster and brooklyn are drawn by the Canvas 2D API. Their pixel data is a parameter.
- Contrast and brightness are fabric's filters. Their effect is the parameter `adjust`, and the model states only the order and the settings they are applied with.
- The other filters are left out: they are made only of fabric's built-in filters or of the blend modes already modelled.

## Findings

| source | as written | input that shows it | evidently intended | confidence | as-written member | corrected member |
|---|---|---|---|---|---|---|
| src/js/component/cropper.js:437-439 | `_ensureNewCropzoneRectIsinBoundary` shrinks the new rectangle only when the ratio flips between portrait and landscape, so without a flip the longer side is kept even when the new shape does not fit; the clamps at cropper.js:470-471 then get reversed bounds | a set zone 200 x 50 at top 25 on a 200 x 100 canvas, updated to ratio 1: the result is 200 x 200 at top -50, which `_isCropzoneSet` rejects, so a second update falls back to a 50 x 50 preset | the new rectangle is shrunk whenever it would exceed a canvas side, so it stays on the canvas, as the method's name says | high (not executed) | `CropperComponent.UpdateMayUnsetZone` | `CropperComponent.UpdateCropzoneRectCorrected` |
