/** The per-channel alpha blend of `process_and_annotate`, on exact reals. */
module Blending {
  import opened Images

  lemma ProductNonNegative(a: real, b: real)
    requires 0.0 <= a && 0.0 <= b
    ensures 0.0 <= a * b
  {
    if a > 0.0 && b > 0.0 {
      assert a * b > 0.0 * b;
    }
  }

  /** `t·u + (1 − t)·v`. */
  function Mix(t: real, u: real, v: real): real {
    t * u + (1.0 - t) * v
  }

  /** A convex combination of two reals lies between them. */
  lemma MixBetween(t: real, u: real, v: real)
    requires 0.0 <= t <= 1.0
    ensures u <= v ==> u <= Mix(t, u, v) <= v
    ensures v <= u ==> v <= Mix(t, u, v) <= u
  {
    if u <= v {
      var d := v - u;
      assert Mix(t, u, v) == v - t * d;
      ProductNonNegative(t, d);
      ProductNonNegative(1.0 - t, d);
      assert (1.0 - t) * d == d - t * d;
    } else {
      var d := u - v;
      assert Mix(t, u, v) == v + t * d;
      ProductNonNegative(t, d);
      ProductNonNegative(1.0 - t, d);
      assert (1.0 - t) * d == d - t * d;
    }
  }

  /** The floor of a real between two integers stays between them. */
  lemma FloorBetween(r: real, lo: int, hi: int)
    requires lo as real <= r <= hi as real
    ensures lo <= r.Floor <= hi
  {
  }

  /** The fraction `alpha / 255` of the overlay's alpha sample. */
  function Opacity(alpha: uint8): (t: real)
    ensures 0.0 <= t <= 1.0
  {
    alpha as real / 255.0
  }

  /** The stored blend lies between the two samples it mixes. */
  lemma BlendBetween(alpha: uint8, over: uint8, base: uint8)
    ensures Min(over, base) <= Mix(Opacity(alpha), over as real, base as real).Floor <= Max(over, base)
  {
    var m := Mix(Opacity(alpha), over as real, base as real);
    MixBetween(Opacity(alpha), over as real, base as real);
    if over <= base {
      FloorBetween(m, over, base);
    } else {
      FloorBetween(m, base, over);
    }
  }

  /** One channel of `α·overlay + (1 − α)·image` with `α = alpha / 255`, stored back as `uint8`
      (the real value is non-negative, so the cast's truncation is the floor). */
  function Blend(alpha: uint8, over: uint8, base: uint8): (v: uint8)
    ensures alpha == 255 ==> v == over
    ensures alpha == 0 ==> v == base
    ensures Min(over, base) <= v <= Max(over, base)
  {
    BlendBetween(alpha, over, base);
    Mix(Opacity(alpha), over as real, base as real).Floor
  }
}
