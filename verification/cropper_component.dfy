/**
 * The crop component's own state (src/js/component/cropper.js): the crop
 * zone, the drag anchor and the fixed aspect ratio, and the handlers that
 * change them. The fabric.js canvas the handlers also talk to is not part of
 * this model; the canvas size and the pointer position are parameters.
 */
module CropperComponent {
  import opened Util
  import opened Geometry
  import opened CropGeometry

  /** A drag shorter than this (Manhattan distance, in pixels) is ignored. */
  const MouseMoveThreshold: real := 10.0

  /** The zone `setCropzoneRect` installs when no ratio is given: placed off
      the canvas so that it does not count as set. */
  const DefaultOption: Zone := Zone(None, Rect(-10.0, -10.0, 1.0, 1.0))

  /** The zone `start` creates before the first drag. */
  const StartZone: Zone := Zone(None, Rect(-1.0, -1.0, 0.5, 0.5))

  /** `_cropzone`, `_startX`, `_startY` and `_fixedAspectRatio`. The anchor
      starts out `null`, which JavaScript arithmetic reads as 0. */
  datatype Cropper = Cropper(cropzone: Option<Zone>, startX: real, startY: real,
                             fixedAspectRatio: Option<real>)

  const Initial: Cropper := Cropper(None, 0.0, 0.0, None)

  /** `_isCropzoneSet`: a zone exists and its corner lies on the canvas. The
      zones `start` and `setCropzoneRect` park off the canvas do not count;
      a zone counts exactly when it lies on some canvas. */
  function IsCropzoneSet(c: Cropper): (b: bool)
    ensures b ==> c.cropzone.Some?
    ensures c.cropzone == Some(DefaultOption) || c.cropzone == Some(StartZone) ==> !b
    ensures forall w: real, h: real :: c.cropzone.Some? && InCanvas(c.cropzone.value.rect, w, h) ==> b
    ensures b && c.cropzone.value.rect.width >= 0.0 && c.cropzone.value.rect.height >= 0.0 ==>
      var r := c.cropzone.value.rect;
      InCanvas(r, r.left + r.width, r.top + r.height)
  {
    c.cropzone.Some? && c.cropzone.value.rect.left >= 0.0 && c.cropzone.value.rect.top >= 0.0
  }

  /** `start`: creates the crop zone unless one already exists. */
  function Start(c: Cropper): (r: Cropper)
    ensures c.cropzone.Some? ==> r == c
    ensures r.cropzone.Some?
    ensures c.cropzone.None? ==> !IsCropzoneSet(r) && r.cropzone.value.presetRatio.None?
    ensures r.startX == c.startX && r.startY == c.startY && r.fixedAspectRatio == c.fixedAspectRatio
  {
    if c.cropzone.Some? then c else c.(cropzone := Some(StartZone))
  }

  /** `end`: drops the crop zone; a no-op when there is none. */
  function End(c: Cropper): (r: Cropper)
    ensures r.cropzone.None? && !IsCropzoneSet(r)
    ensures c.cropzone.None? ==> r == c
    ensures r.startX == c.startX && r.startY == c.startY && r.fixedAspectRatio == c.fixedAspectRatio
  {
    if c.cropzone.None? then c else c.(cropzone := None)
  }

  /** Starting twice is starting once, and so is ending twice. */
  lemma StartEndIdempotent(c: Cropper)
    ensures Start(Start(c)) == Start(c)
    ensures End(End(c)) == End(c)
    ensures End(Start(c)) == End(c)
  {
  }

  /** What a handler leaves behind. A call that ends in a `TypeError` (a
      method called on `null`) still keeps every write it made before the
      throw. */
  datatype Step = Returned(state: Cropper) | Threw(state: Cropper)

  /** `_onFabricMouseDown`: a press on an object only selects the crop zone;
      a press on empty canvas records the pointer as the drag anchor. */
  function OnMouseDown(c: Cropper, onTarget: bool, x: real, y: real): (r: Cropper)
    ensures onTarget ==> r == c
    ensures !onTarget ==> r.startX == x && r.startY == y
    ensures r.cropzone == c.cropzone && r.fixedAspectRatio == c.fixedAspectRatio
  {
    if onTarget then c else c.(startX := x, startY := y)
  }

  /** The pointer has moved more than the threshold away from the anchor, in
      Manhattan distance: a move of more than 10 pixels along one axis always
      counts, and nothing counts unless some axis moved more than 5. */
  function MovedBeyondThreshold(c: Cropper, x: real, y: real): (b: bool)
    ensures Abs(x - c.startX) > MouseMoveThreshold || Abs(y - c.startY) > MouseMoveThreshold ==> b
    ensures b ==> Abs(x - c.startX) > MouseMoveThreshold / 2.0 || Abs(y - c.startY) > MouseMoveThreshold / 2.0
    ensures x == c.startX && y == c.startY ==> !b
  {
    Abs(x - c.startX) + Abs(y - c.startY) > MouseMoveThreshold
  }

  /** `_onFabricMouseMove`: once the pointer is beyond the threshold, the crop
      zone's rectangle becomes the one dragged out from the anchor; its preset
      ratio is kept. Without a crop zone that update throws, having changed
      nothing. */
  function OnMouseMove(c: Cropper, x: real, y: real,
                       canvasWidth: real, canvasHeight: real): (r: Step)
    requires ValidRatio(c.fixedAspectRatio)
    ensures !MovedBeyondThreshold(c, x, y) ==> r == Returned(c)
    ensures r.Threw? <==> MovedBeyondThreshold(c, x, y) && c.cropzone.None?
    ensures r.Threw? ==> r.state == c
    ensures && r.state.startX == c.startX && r.state.startY == c.startY
            && r.state.fixedAspectRatio == c.fixedAspectRatio
            && r.state.cropzone.Some? == c.cropzone.Some?
    ensures r.Returned? && MovedBeyondThreshold(c, x, y) ==>
      var z := r.state.cropzone.value;
      && z.presetRatio == c.cropzone.value.presetRatio
      && (if x >= c.startX then z.rect.left else z.rect.left + z.rect.width) == c.startX
      && (if y >= c.startY then z.rect.top else z.rect.top + z.rect.height) == c.startY
    ensures r.Returned? && MovedBeyondThreshold(c, x, y)
            && 0.0 <= c.startX <= canvasWidth && 0.0 <= c.startY <= canvasHeight ==>
      InCanvas(r.state.cropzone.value.rect, canvasWidth, canvasHeight)
  {
    if !MovedBeyondThreshold(c, x, y) then
      Returned(c)
    else if c.cropzone.None? then
      Threw(c)
    else
      var rect := RectFromDrag(x, y, c.startX, c.startY, canvasWidth, canvasHeight,
                               c.fixedAspectRatio);
      RectFromDragInCanvas(x, y, c.startX, c.startY, canvasWidth, canvasHeight,
                           c.fixedAspectRatio);
      Returned(c.(cropzone := Some(c.cropzone.value.(rect := rect))))
  }

  /** `getCropzoneRect`: the zone's rectangle when the zone reports itself
      valid, `null` otherwise. `Cropzone.isValid` is not part of this model;
      its answer is the parameter `isValid`. */
  function GetCropzoneRect(c: Cropper, isValid: bool): (r: Outcome<Option<Rect>>)
    ensures r.Throws? <==> c.cropzone.None?
    ensures r.Ok? ==> (r.value.Some? <==> isValid)
    ensures r.Ok? && isValid ==> r.value.value == c.cropzone.value.rect
  {
    if c.cropzone.None? then Throws
    else if isValid then Ok(Some(c.cropzone.value.rect))
    else Ok(None)
  }

  /** The ratio lock `_renderCropzoneRect` records before anything else. */
  function LockedRatio(aspectRatio: Option<real>, fixAspect: bool): Option<real>
  {
    if fixAspect then aspectRatio else None
  }

  /** `setCropzoneRect`: fixes the ratio when asked to and installs either
      the centred preset zone for a truthy ratio (at half the canvas unless a
      truthy `sizeInPercent` says otherwise) or `DefaultOption`. Without a
      zone it throws, but only after recording the ratio lock. */
  function SetCropzoneRect(c: Cropper, aspectRatio: Option<real>, fixAspect: bool,
                           sizeInPercent: Option<real>,
                           canvasWidth: real, canvasHeight: real): (r: Step)
    requires canvasWidth > 0.0 && canvasHeight > 0.0
    ensures r.Threw? <==> c.cropzone.None?
    ensures r.Threw? ==> r.state == c.(fixedAspectRatio := if fixAspect then aspectRatio else None)
    ensures && r.state.fixedAspectRatio == (if fixAspect then aspectRatio else None)
            && r.state.startX == c.startX && r.state.startY == c.startY
            && r.state.cropzone.Some? == c.cropzone.Some?
    ensures r.Returned? && !Truthy(aspectRatio) ==>
      r.state.cropzone.value == DefaultOption && !IsCropzoneSet(r.state)
    ensures r.Returned? && Truthy(aspectRatio) ==>
      var z := r.state.cropzone.value;
      && (z.presetRatio.Some? <==> fixAspect)
      && (fixAspect ==> z.presetRatio.value == aspectRatio.value)
      && 2.0 * z.rect.left + z.rect.width == canvasWidth
      && 2.0 * z.rect.top + z.rect.height == canvasHeight
    ensures r.Returned? && Truthy(aspectRatio) && aspectRatio.value > 0.0 && OrElse(sizeInPercent, 0.5) > 0.0 ==>
      var z := r.state.cropzone.value;
      && HasAspect(z.rect.width, z.rect.height, aspectRatio.value)
      && 0.0 < z.rect.width <= canvasWidth * OrElse(sizeInPercent, 0.5)
      && 0.0 < z.rect.height <= canvasHeight * OrElse(sizeInPercent, 0.5)
    ensures r.Returned? && Truthy(aspectRatio) && aspectRatio.value > 0.0
            && 0.0 < OrElse(sizeInPercent, 0.5) <= 1.0 ==>
      InCanvas(r.state.cropzone.value.rect, canvasWidth, canvasHeight) && IsCropzoneSet(r.state)
  {
    hide PresetZone, Render, HasAspect;
    var zone := if Truthy(aspectRatio)
                then PresetZone(aspectRatio.value, fixAspect, OrElse(sizeInPercent, 0.5),
                                canvasWidth, canvasHeight)
                else DefaultOption;
    Render(c, aspectRatio, fixAspect, Ok(zone))
  }

  /** `_renderCropzoneRect`: records the fixed ratio, then replaces the
      zone's properties with what the dimension factory computes. When the
      factory throws, or there is no zone to set them on, the call throws
      with the ratio lock already recorded and the zone untouched. */
  function Render(c: Cropper, aspectRatio: Option<real>, fixAspect: bool, zone: Outcome<Zone>): (r: Step)
    ensures r.Threw? <==> zone.Throws? || c.cropzone.None?
    ensures r.Returned? ==> r.state.cropzone == Some(zone.value)
    ensures r.Threw? ==> r.state.cropzone == c.cropzone
    ensures r.state.fixedAspectRatio == (if fixAspect then aspectRatio else None)
    ensures r.state.startX == c.startX && r.state.startY == c.startY
  {
    var locked := c.(fixedAspectRatio := LockedRatio(aspectRatio, fixAspect));
    if zone.Throws? || c.cropzone.None? then Threw(locked)
    else Returned(locked.(cropzone := Some(zone.value)))
  }

  /** `updateCropzoneRect`: an unset zone is replaced by a preset one (the
      ratio defaulting to 1); a set one is reshaped to the new ratio around
      its current position by `_updateCurrentCropzoneRect`, which keeps the
      corner within the clamp's range but can leave the canvas (and so leave
      the zone unset, see `UpdateMayUnsetZone`). Reading the current
      rectangle of a zone that is not valid yields `null`, and the dimension
      factory then throws. Either way the ratio lock is recorded first. */
  function UpdateCropzoneRect(c: Cropper, aspectRatio: Option<real>, fixAspect: bool,
                              isValid: bool,
                              canvasWidth: real, canvasHeight: real): (r: Step)
    requires canvasWidth > 0.0 && canvasHeight > 0.0
    requires IsCropzoneSet(c) && isValid ==>
      c.cropzone.value.rect.width > 0.0 && c.cropzone.value.rect.height > 0.0
    ensures r.Threw? <==> c.cropzone.None? || (IsCropzoneSet(c) && !isValid)
    ensures r.Threw? ==> r.state.cropzone == c.cropzone
    ensures r.Returned? ==> r.state.cropzone.Some?
    ensures r.state.startX == c.startX && r.state.startY == c.startY
    ensures !IsCropzoneSet(c) ==>
      r.state.fixedAspectRatio == (if fixAspect then Some(OrElse(aspectRatio, 1.0)) else None)
    ensures IsCropzoneSet(c) ==>
      r.state.fixedAspectRatio == (if fixAspect then aspectRatio else None)
    ensures r.Returned? && ValidRatio(aspectRatio) ==>
      var z := r.state.cropzone.value;
      var cr := if IsCropzoneSet(c) then c.cropzone.value.rect else z.rect;
      var ratio := if IsCropzoneSet(c) then OrElse(aspectRatio, cr.width / cr.height)
                   else OrElse(aspectRatio, 1.0);
      && HasAspect(z.rect.width, z.rect.height, ratio)
      && 0.0 < z.rect.width && 0.0 < z.rect.height
    ensures r.Returned? && !IsCropzoneSet(c) && ValidRatio(aspectRatio) ==>
      IsCropzoneSet(r.state) && InCanvas(r.state.cropzone.value.rect, canvasWidth, canvasHeight)
    ensures r.Returned? && IsCropzoneSet(c) ==>
      WithinClampRange(r.state.cropzone.value.rect, canvasWidth, canvasHeight)
    ensures r.Returned? && IsCropzoneSet(c) && ValidRatio(aspectRatio)
            && r.state.cropzone.value.rect.width <= canvasWidth
            && r.state.cropzone.value.rect.height <= canvasHeight ==>
      IsCropzoneSet(r.state) && InCanvas(r.state.cropzone.value.rect, canvasWidth, canvasHeight)
  {
    hide SetCropzoneRect, RatioChangeZone, Render, HasAspect;
    if !IsCropzoneSet(c) then
      SetCropzoneRect(c, Some(OrElse(aspectRatio, 1.0)), fixAspect, None, canvasWidth, canvasHeight)
    else
      var factory := if isValid
                     then Ok(RatioChangeZone(c.cropzone.value.rect, aspectRatio, fixAspect,
                                             canvasWidth, canvasHeight))
                     else Throws;
      Render(c, aspectRatio, fixAspect, factory)
  }

  /** The update as `_ensureNewCropzoneRectIsinBoundary` means it: a set zone
      is reshaped by the corrected ratio change, so every successful update
      with a falsy or positive ratio leaves a set zone on the canvas. */
  function UpdateCropzoneRectCorrected(c: Cropper, aspectRatio: Option<real>, fixAspect: bool,
                                       isValid: bool,
                                       canvasWidth: real, canvasHeight: real): (r: Step)
    requires canvasWidth > 0.0 && canvasHeight > 0.0
    requires IsCropzoneSet(c) && isValid ==>
      c.cropzone.value.rect.width > 0.0 && c.cropzone.value.rect.height > 0.0
    ensures r.Threw? <==> c.cropzone.None? || (IsCropzoneSet(c) && !isValid)
    ensures r.Threw? ==> r.state == UpdateCropzoneRect(c, aspectRatio, fixAspect, isValid,
                                                       canvasWidth, canvasHeight).state
    ensures !IsCropzoneSet(c) ==>
      r == UpdateCropzoneRect(c, aspectRatio, fixAspect, isValid, canvasWidth, canvasHeight)
    ensures r.Returned? ==> r.state.cropzone.Some?
    ensures r.state.fixedAspectRatio
         == UpdateCropzoneRect(c, aspectRatio, fixAspect, isValid, canvasWidth, canvasHeight).state.fixedAspectRatio
    ensures r.Returned? && ValidRatio(aspectRatio) ==>
      var z := r.state.cropzone.value;
      var cr := if IsCropzoneSet(c) then c.cropzone.value.rect else z.rect;
      var ratio := if IsCropzoneSet(c) then OrElse(aspectRatio, cr.width / cr.height)
                   else OrElse(aspectRatio, 1.0);
      && HasAspect(z.rect.width, z.rect.height, ratio)
      && 0.0 < z.rect.width && 0.0 < z.rect.height
    ensures r.Returned? && ValidRatio(aspectRatio) ==>
      IsCropzoneSet(r.state) && InCanvas(r.state.cropzone.value.rect, canvasWidth, canvasHeight)
  {
    hide SetCropzoneRect, RatioChangeZone, RatioChangeZoneInBoundary, Render, HasAspect;
    if !IsCropzoneSet(c) then
      SetCropzoneRect(c, Some(OrElse(aspectRatio, 1.0)), fixAspect, None, canvasWidth, canvasHeight)
    else
      var factory := if isValid
                     then Ok(RatioChangeZoneInBoundary(c.cropzone.value.rect, aspectRatio, fixAspect,
                                                       canvasWidth, canvasHeight))
                     else Throws;
      Render(c, aspectRatio, fixAspect, factory)
  }

  /** The corrected update differs from the program's only where the
      program's reshaped rectangle is wider or taller than the canvas. */
  lemma CorrectedUpdateAgreesWhenItFits(c: Cropper, aspectRatio: Option<real>, fixAspect: bool,
                                        isValid: bool, canvasWidth: real, canvasHeight: real)
    requires canvasWidth > 0.0 && canvasHeight > 0.0
    requires IsCropzoneSet(c) && isValid ==>
      c.cropzone.value.rect.width > 0.0 && c.cropzone.value.rect.height > 0.0
    requires var r := UpdateCropzoneRect(c, aspectRatio, fixAspect, isValid, canvasWidth, canvasHeight);
      r.Returned? ==> r.state.cropzone.value.rect.width <= canvasWidth
                      && r.state.cropzone.value.rect.height <= canvasHeight
    ensures UpdateCropzoneRectCorrected(c, aspectRatio, fixAspect, isValid, canvasWidth, canvasHeight)
         == UpdateCropzoneRect(c, aspectRatio, fixAspect, isValid, canvasWidth, canvasHeight)
  {
    if IsCropzoneSet(c) && isValid {
      InBoundaryAgreesWhenItFits(c.cropzone.value.rect, aspectRatio, fixAspect,
                                 canvasWidth, canvasHeight);
    }
  }

  /** A set zone, the update leaves it unset: the 200 x 50 zone at top 25 on a
      200 x 100 canvas, reshaped to ratio 1, becomes 200 x 200 at top -50, so
      the same update a second time takes the preset fallback and installs a
      centred 50 x 50 square. */
  lemma UpdateMayUnsetZone()
    ensures var c := Cropper(Some(Zone(None, Rect(0.0, 25.0, 200.0, 50.0))), 0.0, 0.0, None);
      var r := UpdateCropzoneRect(c, Some(1.0), false, true, 200.0, 100.0);
      var r' := UpdateCropzoneRect(r.state, Some(1.0), false, true, 200.0, 100.0);
      && IsCropzoneSet(c)
      && r.Returned? && r.state.cropzone.value.rect == Rect(0.0, -50.0, 200.0, 200.0)
      && !IsCropzoneSet(r.state)
      && r'.Returned? && r'.state.cropzone.value.rect == Rect(75.0, 25.0, 50.0, 50.0)
  {
    var c := Cropper(Some(Zone(None, Rect(0.0, 25.0, 200.0, 50.0))), 0.0, 0.0, None);
    RatioChangeMayLeaveCanvas();
    var r := UpdateCropzoneRect(c, Some(1.0), false, true, 200.0, 100.0);
    assert r.state.cropzone.value.rect == Rect(0.0, -50.0, 200.0, 200.0);
    var p := PresetZone(1.0, false, 0.5, 200.0, 100.0);
    PresetOfSquareOnWideCanvas();
    assert UpdateCropzoneRect(r.state, Some(1.0), false, true, 200.0, 100.0).state.cropzone == Some(p);
  }

  /** The preset square at half a 200 x 100 canvas is 50 x 50, centred. */
  lemma PresetOfSquareOnWideCanvas()
    ensures PresetZone(1.0, false, 0.5, 200.0, 100.0).rect == Rect(75.0, 25.0, 50.0, 50.0)
  {
    assert FitScale(200.0, 200.0) == 1.0;
    assert FitScale(200.0, 100.0) == 0.5;
    assert PresetSize(1.0, 200.0, 100.0) == Size(100.0, 100.0);
  }

  /** On the same zone the corrected update keeps the zone set: it installs
      a 100 x 100 square at left 50, top 0. */
  lemma CorrectedUpdateKeepsZoneSet()
    ensures var c := Cropper(Some(Zone(None, Rect(0.0, 25.0, 200.0, 50.0))), 0.0, 0.0, None);
      var r := UpdateCropzoneRectCorrected(c, Some(1.0), false, true, 200.0, 100.0);
      && r.Returned? && r.state.cropzone.value.rect == Rect(50.0, 0.0, 100.0, 100.0)
      && IsCropzoneSet(r.state)
  {
    InBoundaryExample();
  }

  /** After `start`, the zone is not yet set, so the first update installs a
      preset zone on the canvas with the requested (or square) ratio. */
  lemma FirstUpdateAfterStart(c: Cropper, aspectRatio: Option<real>, fixAspect: bool,
                              isValid: bool, canvasWidth: real, canvasHeight: real)
    requires c.cropzone.None? && canvasWidth > 0.0 && canvasHeight > 0.0
    requires ValidRatio(aspectRatio)
    ensures var r := UpdateCropzoneRect(Start(c), aspectRatio, fixAspect, isValid,
                                        canvasWidth, canvasHeight);
            && r.Returned? && IsCropzoneSet(r.state)
            && HasAspect(r.state.cropzone.value.rect.width, r.state.cropzone.value.rect.height,
                         OrElse(aspectRatio, 1.0))
  {
  }

  /** A failed update still locks the ratio: with no zone at all, the
      fallback ratio is recorded before the throw, and the next drag uses it. */
  lemma FailedUpdateLocksRatio(c: Cropper, aspectRatio: Option<real>, isValid: bool,
                               canvasWidth: real, canvasHeight: real)
    requires c.cropzone.None? && canvasWidth > 0.0 && canvasHeight > 0.0
    ensures var r := UpdateCropzoneRect(c, aspectRatio, true, isValid, canvasWidth, canvasHeight);
            && r.Threw?
            && r.state == c.(fixedAspectRatio := Some(OrElse(aspectRatio, 1.0)))
            && Truthy(r.state.fixedAspectRatio)
  {
  }
}
