/** numpy's rounding on exact reals: `np.round` (to an integer) and `np.around(x, 5)`.
    Both round half to even. */
module Rounding {

  /** True when `x` has no fractional part. */
  predicate IsIntegral(x: real) {
    x == x.Floor as real
  }

  /** The integer nearest to `x`; a value exactly halfway between two integers goes to the even one. */
  function RoundHalfEven(x: real): (r: int)
    ensures x - 0.5 <= r as real <= x + 0.5
    ensures r as real - x == 0.5 || x - r as real == 0.5 ==> r % 2 == 0
  {
    var f := x.Floor;
    var frac := x - f as real;
    if frac < 0.5 then f
    else if frac > 0.5 then f + 1
    else if f % 2 == 0 then f
    else f + 1
  }

  /** The two properties above pin the rounded value down: no other integer has them. */
  lemma RoundHalfEvenUnique(x: real, n: int)
    requires x - 0.5 <= n as real <= x + 0.5
    requires n as real - x == 0.5 || x - n as real == 0.5 ==> n % 2 == 0
    ensures n == RoundHalfEven(x)
  {
  }

  /** An integer rounds to itself. */
  lemma RoundIntegral(x: real)
    requires IsIntegral(x)
    ensures RoundHalfEven(x) as real == x
  {
  }

  /** `np.around(x, 5)`: `x` rounded half to even at the fifth decimal, i.e. to a whole number of
      hundred-thousandths. */
  function Around5(x: real): (r: real)
    ensures x - 0.000005 <= r <= x + 0.000005
    ensures 0.0 <= x ==> 0.0 <= r
    ensures IsIntegral(r * 100000.0)
  {
    var n := RoundHalfEven(x * 100000.0);
    assert n as real / 100000.0 * 100000.0 == n as real;
    n as real / 100000.0
  }

  /** A value that already has at most five decimals is left alone. */
  lemma Around5Fixed(x: real)
    requires IsIntegral(x * 100000.0)
    ensures Around5(x) == x
  {
    RoundIntegral(x * 100000.0);
  }

  /** Rounding a rounded value again changes nothing. */
  lemma Around5Idempotent(x: real)
    ensures Around5(Around5(x)) == Around5(x)
  {
    Around5Fixed(Around5(x));
  }

  lemma Around5Zero()
    ensures Around5(0.0) == 0.0
  {
    Around5Fixed(0.0);
  }
}
