/** Shared vocabulary: an optional value (Python's `None`), Python's `int()`
    truncation, NumPy's `clip`, and the 8-bit channel range. */
module Basics {

  datatype Option<+T> = None | Some(value: T)

  /** A value of an 8-bit unsigned image channel. */
  predicate IsByte(v: int) {
    0 <= v <= 255
  }

  /** A real lying in the closed unit interval. */
  predicate InUnit(r: real) {
    0.0 <= r <= 1.0
  }

  function MinInt(a: int, b: int): int {
    if a <= b then a else b
  }

  function MaxInt(a: int, b: int): int {
    if a >= b then a else b
  }

  function MinReal(a: real, b: real): real {
    if a <= b then a else b
  }

  /** Python's `int(r)` on a float: rounds toward zero. */
  function Trunc(r: real): (t: int)
    ensures 0.0 <= r ==> 0 <= t && t as real <= r < t as real + 1.0
    ensures r < 0.0 ==> t <= 0 && t as real - 1.0 < r <= t as real
  {
    if r >= 0.0 then r.Floor else -((-r).Floor)
  }

  /** NumPy's `clip(r, lo, hi)`. */
  function Clip(r: real, lo: real, hi: real): (c: real)
    requires lo <= hi
    ensures lo <= c <= hi
    ensures lo <= r <= hi ==> c == r
    ensures r < lo ==> c == lo
    ensures hi < r ==> c == hi
  {
    if r < lo then lo else if r > hi then hi else r
  }

  /** `clip(r, 0, 255).astype(uint8)`: clip to the channel range, then drop the fraction. */
  function ToByte(r: real): (b: int)
    ensures IsByte(b)
    ensures 0.0 <= r <= 255.0 ==> b as real <= r < b as real + 1.0
  {
    Clip(r, 0.0, 255.0).Floor
  }

  /** `r` lies on the closed segment between `a` and `b`, in either order. */
  predicate Between(r: real, a: real, b: real) {
    (a <= r <= b) || (b <= r <= a)
  }

  /** A convex combination `a·(1-w) + b·w` with `w` in [0,1] lies between `a` and `b`. */
  lemma ConvexBetween(a: real, b: real, w: real)
    requires InUnit(w)
    ensures Between(a * (1.0 - w) + b * w, a, b)
  {
    var d := b - a;
    assert a * (1.0 - w) + b * w == a + d * w;
    assert d * w + d * (1.0 - w) == d;
    if a <= b {
      NonNegativeProduct(d, w);
      NonNegativeProduct(d, 1.0 - w);
    } else {
      NonNegativeProduct(-d, w);
      NonNegativeProduct(-d, 1.0 - w);
    }
  }

  lemma NonNegativeProduct(a: real, b: real)
    requires a >= 0.0 && b >= 0.0
    ensures a * b >= 0.0
  {
  }
}
