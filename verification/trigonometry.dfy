/**
 * The numeric library's cosine, arccosine and pi, kept uninterpreted: the
 * model is parameterised by them, and `Valid` lists the facts of the real
 * functions that the range results rely on.
 */
module Trigonometry {

  datatype Trig = Trig(cos: real -> real, acos: real -> real, pi: real)

  /** Properties the real cos, arccos and pi have. */
  ghost predicate Valid(t: Trig)
  {
    && 0.0 < t.pi
    && (forall x :: -1.0 <= t.cos(x) <= 1.0)
    && (forall x :: t.cos(-x) == t.cos(x))
    && (forall y :: -1.0 <= y <= 1.0 ==> 0.0 <= t.acos(y) <= t.pi && t.cos(t.acos(y)) == y)
    && (forall x :: 0.0 <= x <= t.pi ==> t.acos(t.cos(x)) == x)
  }

  /**
   * acos(cos(x)): the angle in [0, pi] with the cosine of x. It keeps the
   * cosine and nothing else, so it is not a reduction modulo 2 pi.
   */
  function Normalize(t: Trig, x: real): (r: real)
    ensures Valid(t) ==> 0.0 <= r <= t.pi
    ensures Valid(t) ==> t.cos(r) == t.cos(x)
  {
    t.acos(t.cos(x))
  }

  /** Angles already in [0, pi] are left as they are. */
  lemma NormalizeFixesPrincipalRange(t: Trig, x: real)
    requires Valid(t)
    requires 0.0 <= x <= t.pi
    ensures Normalize(t, x) == x
  {
  }

  /** An angle and its negation normalise to the same value: the sign is lost. */
  lemma NormalizeForgetsSign(t: Trig, x: real)
    requires Valid(t)
    ensures Normalize(t, -x) == Normalize(t, x)
  {
  }

  /** Normalising twice is normalising once. */
  lemma NormalizeIdempotent(t: Trig, x: real)
    requires Valid(t)
    ensures Normalize(t, Normalize(t, x)) == Normalize(t, x)
  {
  }
}
