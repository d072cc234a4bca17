/** The arithmetic both colour mappers share: the linear blend
    `c1 * (1 - p) + c2 * p` and JavaScript's `score % 1`. */
module ColorMath {

  /** One channel blended from c1 towards c2 by proportion p. */
  function Mix(c1: real, c2: real, p: real): real
  {
    c1 * (1.0 - p) + c2 * p
  }

  /** The blend starts at c1 and ends at c2, and blending a channel with itself
      changes nothing. */
  lemma MixEnds(c1: real, c2: real, p: real)
    ensures Mix(c1, c2, 0.0) == c1 && Mix(c1, c2, 1.0) == c2
    ensures Mix(c1, c1, p) == c1
  {
    assert c1 * (1.0 - p) + c1 * p == c1 * ((1.0 - p) + p);
  }

  /** For p in [0, 1] the blend lies between the two channels. */
  lemma MixBetween(c1: real, c2: real, p: real)
    requires 0.0 <= p <= 1.0
    ensures c1 <= c2 ==> c1 <= Mix(c1, c2, p) <= c2
    ensures c2 <= c1 ==> c2 <= Mix(c1, c2, p) <= c1
  {
    var d := c2 - c1;
    assert Mix(c1, c2, p) == c1 + d * p by {
      assert c1 * (1.0 - p) == c1 - c1 * p;
      assert c2 * p - c1 * p == d * p;
    }
    if c1 <= c2 {
      ScaleWithin(d, p);
    } else {
      ScaleWithin(-d, p);
      assert d * p == -((-d) * p);
    }
  }

  lemma ScaleWithin(d: real, p: real)
    requires 0.0 <= d && 0.0 <= p <= 1.0
    ensures 0.0 <= d * p <= d
  {
    assert d * p + d * (1.0 - p) == d;
    assert 0.0 <= d * (1.0 - p);
  }

  /** `Math.trunc`: the integer part, rounding toward zero. */
  function Trunc(r: real): int
  {
    if r >= 0.0 then r.Floor else -((-r).Floor)
  }

  /** JavaScript's `r % 1`: the remainder takes the sign of r, so it is the part of r
      after the decimal point, negative for negative r. */
  function FractionalPart(r: real): (f: real)
    ensures r >= 0.0 ==> 0.0 <= f < 1.0
    ensures r < 0.0 ==> -1.0 < f <= 0.0
    ensures r == Trunc(r) as real + f
  {
    r - Trunc(r) as real
  }

  /** An integral score has no fractional part. */
  lemma IntegerHasNoFraction(n: int)
    ensures FractionalPart(n as real) == 0.0
  {
    if n < 0 {
      assert (-(n as real)).Floor == -n;
    }
  }
}
