/**
 * Small numeric helpers shared by the crop, straighten and filter models.
 *
 * Numbers are modelled as unbounded `real`s; the JavaScript notions the
 * editor relies on (truthiness of an optional number, `Math.abs`,
 * `Math.max`, the remainder operator `%`) are written out here once.
 */
module Util {

  /** An optional value; `None` stands for JavaScript's `null`. */
  datatype Option<+T> = None | Some(value: T)

  /** The outcome of an operation that may throw: `Throws` stands for the
      `TypeError` JavaScript raises when a method is called on `null`. */
  datatype Outcome<+T> = Ok(value: T) | Throws

  /** JavaScript truthiness of an optional number: `null` and `0` are falsy. */
  predicate Truthy(o: Option<real>)
  {
    o.Some? && o.value != 0.0
  }

  /** The JavaScript expression `o || fallback` on an optional number. */
  function OrElse(o: Option<real>, fallback: real): real
  {
    if Truthy(o) then o.value else fallback
  }

  function Abs(x: real): real
  {
    if x < 0.0 then -x else x
  }

  function Min(a: real, b: real): real
  {
    if a <= b then a else b
  }

  function Max(a: real, b: real): real
  {
    if a >= b then a else b
  }

  /**
   * `clamp(value, a, b)` of the editor's utility module. That module is not
   * part of this model; the clamp is taken to accept its bounds in either
   * order (cropper.js passes them reversed when the drag goes left or up)
   * and to return the value itself whenever it already lies between them.
   */
  function Clamp(v: real, a: real, b: real): (r: real)
    ensures Min(a, b) <= r <= Max(a, b)
    ensures Min(a, b) <= v <= Max(a, b) ==> r == v
    ensures v < Min(a, b) ==> r == Min(a, b)
    ensures v > Max(a, b) ==> r == Max(a, b)
  {
    Max(Min(a, b), Min(v, Max(a, b)))
  }

  /**
   * `fixFloatingPoint` of the editor's utility module rounds away binary
   * floating-point noise; on exact reals there is none, so it is the identity.
   */
  function FixFloatingPoint(v: real): real
  {
    v
  }

  /** True when `x` is a whole number. */
  predicate IsWhole(x: real)
  {
    x.Floor as real == x
  }

  /**
   * JavaScript's remainder `a % m` for a positive modulus: the result keeps
   * the sign of the dividend (truncating division), unlike Dafny's
   * Euclidean `%` on integers.
   */
  function JsRemainder(a: real, m: real): (r: real)
    requires m > 0.0
    ensures a >= 0.0 ==> 0.0 <= r < m
    ensures a < 0.0 ==> -m < r <= 0.0
    ensures IsWhole((a - r) / m)
  {
    if a >= 0.0 then
      FloorRemainder(a, m)
    else
      hide FloorRemainder;
      var r := FloorRemainder(-a, m);
      NegatedRemainder(a, m, r);
      -r
  }

  /** The remainder of `-a` negated is a remainder of `a`. */
  lemma NegatedRemainder(a: real, m: real, r: real)
    requires m > 0.0 && IsWhole((-a - r) / m)
    ensures IsWhole((a - -r) / m)
  {
    var x := (-a - r) / m;
    assert (a - -r) / m == -x;
    var n := x.Floor;
    assert -x == (-n) as real;
  }

  /** `a - m * floor(a / m)` for a non-negative dividend. */
  function FloorRemainder(a: real, m: real): (r: real)
    requires a >= 0.0 && m > 0.0
    ensures 0.0 <= r < m
    ensures IsWhole((a - r) / m)
  {
    var f := (a / m).Floor;
    FloorRemainderBounds(a, m, f);
    a - f as real * m
  }

  lemma FloorRemainderBounds(a: real, m: real, f: int)
    requires m > 0.0 && f == (a / m).Floor
    ensures 0.0 <= a - f as real * m < m
    ensures (a - (a - f as real * m)) / m == f as real
  {
    var q := a / m;
    var fr := f as real;
    var d := q - fr;
    assert q * m == a;
    assert 0.0 <= d < 1.0;
    assert a - fr * m == d * m;
    assert (1.0 - d) * m > 0.0;
    assert (1.0 - d) * m == m - d * m;
    assert d * m >= 0.0;
    assert d * m < m;
    assert a - fr * m < m;
  }
}
