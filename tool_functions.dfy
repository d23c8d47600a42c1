/**
 * The toroidal index helper `confine` of the tool-functions service.
 * JavaScript's `%` truncates toward zero, so the remainder takes the sign of
 * the dividend; Dafny's `%` is Euclidean. `TruncRem` is JavaScript's operator,
 * `Confine` is the helper exactly as written on top of it.
 */
module ToolFunctions {

  /** JavaScript's `a % b` for a positive divisor. */
  function TruncRem(a: int, b: int): (r: int)
    requires b > 0
    ensures a >= 0 ==> 0 <= r < b
    ensures a < 0 ==> -b < r <= 0
    ensures a >= 0 ==> r == a % b
    ensures a < 0 ==> r == -((-a) % b)
  {
    if a >= 0 then a % b else -((-a) % b)
  }

  /**
   * `confine(num, range)`: a negative offset is shifted by one `range` and the
   * sign of the remainder is dropped; a non-negative one is reduced by `%`.
   * `range` must be positive (the source computes NaN for 0).
   */
  function Confine(num: int, range: int): (r: int)
    requires range > 0
    ensures 0 <= r < range
  {
    if num < 0 then
      var t := TruncRem(range + num, range);
      if t < 0 then t * -1 else t
    else
      TruncRem(num, range)
  }

  /** A non-negative offset is reduced modulo `range`. */
  lemma ConfineOfNatural(num: int, range: int)
    requires range > 0 && num >= 0
    ensures Confine(num, range) == num % range
  {
  }

  /** A negative offset no further than one `range` below 0 wraps to `range + num`. */
  lemma ConfineOfSmallNegative(num: int, range: int)
    requires range > 0 && -range <= num < 0
    ensures Confine(num, range) == range + num
  {
    assert 0 <= range + num < range;
  }

  /** On every offset from `-range` upward `confine` is the true (Euclidean) modulus. */
  lemma ConfineIsModulo(num: int, range: int)
    requires range > 0 && num >= -range
    ensures Confine(num, range) == num % range
  {
    if num < 0 {
      ConfineOfSmallNegative(num, range);
      WrapIsModulo(num, range);
    }
  }

  /**
   * Below `-range` the helper yields the magnitude of the truncated remainder
   * of `range + num`, which in general is not congruent to `num`.
   */
  lemma ConfineOfLargeNegative(num: int, range: int)
    requires range > 0 && num < -range
    ensures Confine(num, range) == (-(range + num)) % range
  {
  }

  /** The smallest witness that `confine` is not a modulus: -6 lands on 1, not 4. */
  lemma ConfineIsNotModulo()
    ensures Confine(-6, 5) == 1
    ensures (-6) % 5 == 4
  {
    assert TruncRem(-1, 5) == -1;
  }

  /** The position `x` names on a ring of `n` cells, for `x` within one lap either side of it. */
  function Wrap(x: int, n: int): int
  {
    if x < 0 then x + n else if x < n then x else x - n
  }

  /** Within one lap either side, `Wrap` is the Euclidean remainder. */
  lemma WrapIsModulo(x: int, n: int)
    requires n > 0 && -n <= x < 2 * n
    ensures x % n == Wrap(x, n)
  {
    var q, r := x / n, x % n;
    assert x == q * n + r && 0 <= r < n;
    if x < 0 {
      assert q == -1;
    } else if x < n {
      assert q == 0;
    } else {
      assert q == 1;
    }
  }

  /** Within one lap either side, `confine` lands where `Wrap` does. */
  lemma ConfineIsWrap(num: int, range: int)
    requires range > 0 && -range <= num < 2 * range
    ensures Confine(num, range) == Wrap(num, range)
  {
    if num < 0 {
      ConfineOfSmallNegative(num, range);
    } else {
      WrapIsModulo(num, range);
    }
  }

  /** Confining an already confined index changes nothing. */
  lemma ConfineIdempotent(num: int, range: int)
    requires range > 0
    ensures Confine(Confine(num, range), range) == Confine(num, range)
  {
    WrapIsModulo(Confine(num, range), range);
  }
}
