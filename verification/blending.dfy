/**
 * The blend loop of src/js/filter/functions.js: every pixel of the
 * background data has its red, green and blue bytes replaced by the
 * transform of the background byte and the foreground byte at the same
 * index; the alpha byte is skipped. The toaster filter carries a verbatim
 * copy of this loop as its own `blend`.
 */
module Blending {
  import opened Pixels

  /** A blend mode: bottom byte and top byte to an unrounded number. It may
      be partial (color dodge is undefined for a top byte of 255). */
  type Transform = (Byte, Byte) --> real

  /** The blend is defined: whole pixels, a foreground at least as long as
      the background, and the transform defined wherever it is applied. */
  ghost predicate CanBlend(bg: seq<Byte>, fg: seq<Byte>, transform: Transform)
  {
    && |bg| % 4 == 0 && |fg| >= |bg|
    && forall k :: 0 <= k < |bg| && k % 4 != 3 ==> transform.requires(bg[k], fg[k])
  }

  predicate IsAlpha(k: int)
  {
    k % 4 == 3
  }

  /** What the blend leaves at index `k`: the alpha byte as it was, any other
      byte the stored transform of the two bytes at `k`. */
  function BlendedByte(bg: seq<Byte>, fg: seq<Byte>, transform: Transform, k: int): Byte
    requires 0 <= k < |bg| <= |fg|
    requires !IsAlpha(k) ==> transform.requires(bg[k], fg[k])
  {
    if IsAlpha(k) then bg[k] else ToUint8Clamp(transform(bg[k], fg[k]))
  }

  /** The blended data, built pixel by pixel from the front. */
  function BlendSeq(bg: seq<Byte>, fg: seq<Byte>, transform: Transform): (r: seq<Byte>)
    requires CanBlend(bg, fg, transform)
    ensures |r| == |bg|
    ensures forall k :: 0 <= k < |bg| ==> r[k] == BlendedByte(bg, fg, transform, k)
    decreases |bg|
  {
    if |bg| == 0 then []
    else
      var n := |bg| - 4;
      var front := BlendSeq(bg[..n], fg, transform);
      front + [ToUint8Clamp(transform(bg[n], fg[n])),
               ToUint8Clamp(transform(bg[n + 1], fg[n + 1])),
               ToUint8Clamp(transform(bg[n + 2], fg[n + 2])),
               bg[n + 3]]
  }

  /** Each pixel of the result depends on that pixel alone: two backgrounds
      that agree on a pixel blend to the same bytes there. */
  lemma BlendIsPixelLocal(bg: seq<Byte>, bg': seq<Byte>, fg: seq<Byte>, transform: Transform, p: nat)
    requires CanBlend(bg, fg, transform) && CanBlend(bg', fg, transform)
    requires |bg| == |bg'| && 4 * p + 4 <= |bg|
    requires bg[4 * p .. 4 * p + 4] == bg'[4 * p .. 4 * p + 4]
    ensures BlendSeq(bg, fg, transform)[4 * p .. 4 * p + 4] == BlendSeq(bg', fg, transform)[4 * p .. 4 * p + 4]
  {
    var r := BlendSeq(bg, fg, transform);
    var r' := BlendSeq(bg', fg, transform);
    forall k | 4 * p <= k < 4 * p + 4
      ensures r[k] == r'[k]
    {
      assert bg[k] == bg[4 * p .. 4 * p + 4][k - 4 * p];
      assert bg'[k] == bg'[4 * p .. 4 * p + 4][k - 4 * p];
    }
  }

  /** `blend`: rewrites the background data in place and returns it. The
      two buffers are distinct `ImageData` objects. */
  method Blend(bg: array<Byte>, fg: array<Byte>, transform: Transform) returns (result: array<Byte>)
    requires bg != fg
    requires CanBlend(bg[..], fg[..], transform)
    modifies bg
    ensures result == bg
    ensures bg[..] == BlendSeq(old(bg[..]), fg[..], transform)
  {
    ghost var before := bg[..];
    var i := 0;
    while i < bg.Length
      invariant 0 <= i <= bg.Length && i % 4 == 0
      invariant forall k :: 0 <= k < i ==> bg[k] == BlendedByte(before, fg[..], transform, k)
      invariant forall k :: i <= k < bg.Length ==> bg[k] == before[k]
    {
      bg[i] := ToUint8Clamp(transform(bg[i], fg[i]));
      bg[i + 1] := ToUint8Clamp(transform(bg[i + 1], fg[i + 1]));
      bg[i + 2] := ToUint8Clamp(transform(bg[i + 2], fg[i + 2]));
      i := i + 4;
    }
    result := bg;
  }
}
