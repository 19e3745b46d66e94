/**
 * The straighten component (src/js/component/straighten.js): rotating the
 * image by a small angle and clipping it to the largest rectangle of the
 * image's own proportions that is centred in the rotated footprint.
 *
 * The rotated sizes come from fabric.js after a rotation side effect; they
 * are a parameter here (`rotatedSize`). The sine and cosine are parameters
 * too, constrained only by their values at zero.
 */
module Straighten {
  import opened Util
  import opened Geometry

  /** `Math.PI`. */
  const Pi: real := 3.141592653589793

  /** The trigonometric functions the solver uses. */
  datatype Trig = Trig(sin: real -> real, cos: real -> real)

  predicate AgreesAtZero(trig: Trig)
  {
    trig.sin(0.0) == 0.0 && trig.cos(0.0) == 1.0
  }

  /** `angle %= 360`: keeps the sign, drops whole turns. */
  function ReduceAngle(angle: real): (r: real)
    ensures angle >= 0.0 ==> 0.0 <= r < 360.0
    ensures angle < 0.0 ==> -360.0 < r <= 0.0
    ensures IsWhole((angle - r) / 360.0)
  {
    JsRemainder(angle, 360.0)
  }

  /** An angle already within a turn is its own reduction. */
  lemma ReduceWithinTurn(angle: real)
    requires -360.0 < angle < 360.0
    ensures ReduceAngle(angle) == angle
  {
    var r := ReduceAngle(angle);
    var k := (angle - r) / 360.0;
    assert -2.0 < k < 2.0 by {
      assert angle - r == k * 360.0;
    }
    assert k.Floor as real == k;
    if angle >= 0.0 {
      assert -1.0 < k < 1.0 by {
        assert angle - r == k * 360.0;
      }
    } else {
      assert -1.0 < k < 1.0 by {
        assert angle - r == k * 360.0;
      }
    }
    assert k == 0.0;
  }

  /** Reducing twice is reducing once. */
  lemma ReduceAngleIdempotent(angle: real)
    ensures ReduceAngle(ReduceAngle(angle)) == ReduceAngle(angle)
  {
    ReduceWithinTurn(ReduceAngle(angle));
  }

  /** `Math.abs(angle) * Math.PI / 180`. */
  function Radians(angle: real): (theta: real)
    ensures theta >= 0.0
    ensures angle == 0.0 ==> theta == 0.0
  {
    Abs(angle) * Pi / 180.0
  }

  /** `aspectRatio * sin(theta) + cos(theta)`, the divisor of the solver. */
  function Divisor(originalWidth: real, originalHeight: real, angle: real, trig: Trig): real
    requires originalHeight != 0.0
  {
    (originalWidth / originalHeight) * trig.sin(Radians(angle)) + trig.cos(Radians(angle))
  }

  /** The inputs on which the solver performs no division by zero; the
      source guards none of them. */
  predicate Solvable(originalWidth: real, originalHeight: real,
                     rotatedWidth: real, rotatedHeight: real, angle: real, trig: Trig)
  {
    && originalHeight != 0.0
    && (originalWidth / originalHeight < 1.0 ==> rotatedHeight != 0.0 && rotatedWidth != 0.0)
    && Divisor(originalWidth, originalHeight, angle, trig) != 0.0
  }

  /** `_findLargestRectWithSameAspect`: the height is the footprint's height
      (measured through the width for portrait images) divided by
      `ratio * sin + cos`; the width follows from the original ratio. */
  function LargestRectWithSameAspect(originalWidth: real, originalHeight: real,
                                     rotatedWidth: real, rotatedHeight: real,
                                     angle: real, trig: Trig): (s: Size)
    requires Solvable(originalWidth, originalHeight, rotatedWidth, rotatedHeight, angle, trig)
    ensures Proportional(originalWidth, originalHeight, s.width, s.height)
    ensures originalWidth > 0.0 && originalHeight > 0.0 && rotatedWidth > 0.0 && rotatedHeight > 0.0
            && Divisor(originalWidth, originalHeight, angle, trig) > 0.0 ==>
      s.width > 0.0 && s.height > 0.0
  {
    var aspectRatio := originalWidth / originalHeight;
    var totalHeight := if aspectRatio < 1.0 then PortraitHeight(originalWidth, rotatedWidth, rotatedHeight)
                       else originalHeight;
    var h := totalHeight / Divisor(originalWidth, originalHeight, angle, trig);
    SameAspect(originalWidth, originalHeight, h);
    PositiveQuotient(totalHeight, Divisor(originalWidth, originalHeight, angle, trig));
    Size(h * aspectRatio, h)
  }

  /** `originalWidth / rotatedAspectRatio`: the footprint's height for a
      portrait image, the only branch that reads the rotated aspect ratio. */
  function PortraitHeight(originalWidth: real, rotatedWidth: real, rotatedHeight: real): (h: real)
    requires rotatedWidth != 0.0 && rotatedHeight != 0.0
    ensures h * rotatedWidth == originalWidth * rotatedHeight
    ensures originalWidth > 0.0 && rotatedWidth > 0.0 && rotatedHeight > 0.0 ==> h > 0.0
  {
    var rotatedAspectRatio := rotatedWidth / rotatedHeight;
    PositiveQuotient(rotatedWidth, rotatedHeight);
    PositiveQuotient(originalWidth, rotatedAspectRatio);
    originalWidth / rotatedAspectRatio
  }

  lemma SameAspect(width: real, height: real, h: real)
    requires height != 0.0
    ensures Proportional(width, height, h * (width / height), h)
  {
    assert (width / height) * height == width;
  }

  lemma PositiveQuotient(a: real, b: real)
    ensures a > 0.0 && b > 0.0 ==> a / b > 0.0
  {
  }

  /** Only the magnitude of the angle matters to the solver. */
  lemma LargestRectIsEven(originalWidth: real, originalHeight: real,
                          rotatedWidth: real, rotatedHeight: real, angle: real, trig: Trig)
    requires Solvable(originalWidth, originalHeight, rotatedWidth, rotatedHeight, angle, trig)
    ensures Solvable(originalWidth, originalHeight, rotatedWidth, rotatedHeight, -angle, trig)
    ensures LargestRectWithSameAspect(originalWidth, originalHeight, rotatedWidth, rotatedHeight, -angle, trig)
         == LargestRectWithSameAspect(originalWidth, originalHeight, rotatedWidth, rotatedHeight, angle, trig)
  {
    assert Radians(-angle) == Radians(angle);
  }

  /** Unrotated, the largest rectangle is the image itself, for landscape
      and portrait images alike. */
  lemma LargestRectAtZero(width: real, height: real, trig: Trig)
    requires width > 0.0 && height > 0.0 && AgreesAtZero(trig)
    ensures Solvable(width, height, width, height, 0.0, trig)
    ensures LargestRectWithSameAspect(width, height, width, height, 0.0, trig) == Size(width, height)
  {
    var aspectRatio := width / height;
    assert Divisor(width, height, 0.0, trig) == 1.0;
    assert aspectRatio * height == width;
    if aspectRatio < 1.0 {
      assert width / aspectRatio == height;
    }
  }

  /** `_angle` and `_clipRect`. */
  datatype StraightenState = StraightenState(angle: real, clipRect: Rect)

  /** The state the constructor sets up for a canvas of the given size. */
  function InitialState(canvasWidth: real, canvasHeight: real): StraightenState
  {
    StraightenState(0.0, Rect(0.0, 0.0, canvasWidth, canvasHeight))
  }

  /** The preconditions of `Straighten`: the solver's divisions are defined
      for the sizes measured before and after the rotation. */
  predicate CanStraighten(angle: real, rotationAngle: real, rotatedSize: real -> Size, trig: Trig)
  {
    var a := ReduceAngle(angle);
    var imageSize := rotatedSize(rotationAngle);
    var straightened := rotatedSize(a + rotationAngle);
    Solvable(imageSize.width, imageSize.height, straightened.width, straightened.height, a, trig)
  }

  /** `straighten`: reduces the angle, stores it, and clips to the largest
      rectangle of the image's proportions centred in the rotated footprint.
      The reduced angle is also what the returned promise resolves to.
      `rotatedSize(a)` is the footprint of the image turned by `a` degrees. */
  function Straighten(angle: real, rotationAngle: real, rotatedSize: real -> Size, trig: Trig)
    : (r: (StraightenState, real))
    requires CanStraighten(angle, rotationAngle, rotatedSize, trig)
    ensures r.0.angle == r.1
    ensures angle >= 0.0 ==> 0.0 <= r.1 < 360.0
    ensures angle < 0.0 ==> -360.0 < r.1 <= 0.0
    ensures IsWhole((angle - r.1) / 360.0)
    ensures 2.0 * r.0.clipRect.left + r.0.clipRect.width == rotatedSize(r.1 + rotationAngle).width
    ensures 2.0 * r.0.clipRect.top + r.0.clipRect.height == rotatedSize(r.1 + rotationAngle).height
    ensures Proportional(rotatedSize(rotationAngle).width, rotatedSize(rotationAngle).height,
                         r.0.clipRect.width, r.0.clipRect.height)
  {
    var a := ReduceAngle(angle);
    var imageSize := rotatedSize(rotationAngle);
    var straightened := rotatedSize(a + rotationAngle);
    var maxRect := LargestRectWithSameAspect(imageSize.width, imageSize.height,
                                             straightened.width, straightened.height, a, trig);
    (StraightenState(a, Rect((straightened.width - maxRect.width) / 2.0,
                             (straightened.height - maxRect.height) / 2.0,
                             maxRect.width, maxRect.height)),
     a)
  }

  /** Straightening by an angle and by its reduction give the same result. */
  lemma StraightenReduced(angle: real, rotationAngle: real, rotatedSize: real -> Size, trig: Trig)
    requires CanStraighten(angle, rotationAngle, rotatedSize, trig)
    ensures CanStraighten(ReduceAngle(angle), rotationAngle, rotatedSize, trig)
    ensures Straighten(ReduceAngle(angle), rotationAngle, rotatedSize, trig)
         == Straighten(angle, rotationAngle, rotatedSize, trig)
  {
    ReduceAngleIdempotent(angle);
  }

  /** Straightening an unrotated image by zero degrees restores the state
      the constructor set up, provided the image measured at zero degrees
      has the canvas's size (the constructor reads the canvas, `Straighten`
      reads the rotated image). */
  lemma StraightenZeroIsInitial(rotatedSize: real -> Size, trig: Trig,
                                canvasWidth: real, canvasHeight: real)
    requires AgreesAtZero(trig)
    requires canvasWidth > 0.0 && canvasHeight > 0.0
    requires rotatedSize(0.0) == Size(canvasWidth, canvasHeight)
    ensures CanStraighten(0.0, 0.0, rotatedSize, trig)
    ensures Straighten(0.0, 0.0, rotatedSize, trig) == (InitialState(canvasWidth, canvasHeight), 0.0)
  {
    ReduceWithinTurn(0.0);
    LargestRectAtZero(canvasWidth, canvasHeight, trig);
  }
}
