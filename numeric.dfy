/**
 * The rounding functions of <cmath> that the engine applies to doubles,
 * stated over exact reals.
 */
module Numeric {
  /** `std::floor`, as an integer. */
  function Floor(x: real): (r: int)
    ensures r as real <= x < r as real + 1.0
  {
    x.Floor
  }

  /** `std::ceil`, as an integer. */
  function Ceil(x: real): (r: int)
    ensures x <= r as real < x + 1.0
  {
    -((-x).Floor)
  }

  /** `std::trunc`: rounds toward zero. */
  function Trunc(x: real): (r: real)
    ensures r.Floor as real == r
    ensures 0.0 <= x ==> 0.0 <= r <= x
    ensures x < 0.0 ==> x <= r <= 0.0
    ensures x - 1.0 < r < x + 1.0
  {
    if x >= 0.0 then Floor(x) as real else Ceil(x) as real
  }

  predicate IsIntegral(x: real)
  {
    x.Floor as real == x
  }

  /** `trunc(x) != x` is exactly "x is not a whole number". */
  lemma TruncMovesExactlyFractions(x: real)
    ensures Trunc(x) == x <==> IsIntegral(x)
  {
    if x < 0.0 {
      if IsIntegral(x) {
        var k := x.Floor;
        WholeFloor(-k);
        assert -x == (-k) as real;
      } else if Trunc(x) == x {
        WholeFloor(Ceil(x));
      }
    }
  }

  lemma WholeFloor(k: int)
    ensures (k as real).Floor == k
  {
  }

  /**
   * The fractional part as the cut generator uses it: a negative value gets
   * `1 + frac`, so the result always lies in [0, 1).
   */
  function Fract(x: real): (f: real)
    ensures 0.0 <= f < 1.0
    ensures IsIntegral(x - f)
  {
    x - Floor(x) as real
  }

  /** Between floor(v) and ceil(v) there is no whole number; both are v itself iff v is whole. */
  lemma FloorCeilSplit(v: real, k: int)
    ensures k <= Floor(v) || Ceil(v) <= k
    ensures Floor(v) == Ceil(v) <==> IsIntegral(v)
    ensures !IsIntegral(v) ==> Ceil(v) == Floor(v) + 1
  {
  }
}
