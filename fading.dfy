/**
 * The fade factors used when drawing, and the clamp they share.
 * Each is `max(0, 1 - (age / maxAge) * rate)` over exact reals.
 */
module Fading {

  /** `Math.max(0, v)`. */
  function Clamp0(v: real): (r: real)
    ensures r >= 0.0 && r >= v
    ensures v >= 0.0 ==> r == v
    ensures v <= 0.0 ==> r == 0.0
  {
    if v < 0.0 then 0.0 else v
  }

  /** Linear age fade shared by mushrooms and root segments. */
  function AgeFade(age: int, maxAge: nat, rate: real): real
    requires maxAge > 0
  {
    Clamp0(1.0 - (age as real / maxAge as real) * rate)
  }

  /** A larger age never fades in: the fade is non-increasing in the age. */
  lemma AgeFadeMonotone(a1: int, a2: int, maxAge: nat, rate: real)
    requires maxAge > 0 && rate >= 0.0 && a1 <= a2
    ensures AgeFade(a2, maxAge, rate) <= AgeFade(a1, maxAge, rate)
  {
    var m := maxAge as real;
    assert a1 as real / m <= a2 as real / m;
    assert (a1 as real / m) * rate <= (a2 as real / m) * rate;
  }
}
