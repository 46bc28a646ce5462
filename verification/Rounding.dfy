/** Python's `round`: to the nearest integer, ties to the even one, on exact fractions. */
module Rounding {

  function RoundHalfEven(num: nat, den: nat): (n: nat)
    requires den > 0
  {
    var q, r := num / den, num % den;
    if 2 * r < den then q
    else if 2 * r > den then q + 1
    else if q % 2 == 0 then q
    else q + 1
  }

  /** `n` is a nearest integer to num/den, and the even one when two are equally near. */
  predicate IsRounded(num: nat, den: nat, n: nat) {
    && (2 * n - 1) * den <= 2 * num <= (2 * n + 1) * den
    && (2 * num == (2 * n - 1) * den || 2 * num == (2 * n + 1) * den ==> n % 2 == 0)
  }

  lemma RoundsToNearestEven(num: nat, den: nat)
    requires den > 0
    ensures IsRounded(num, den, RoundHalfEven(num, den))
  {
    var q, r := num / den, num % den;
    assert num == q * den + r;
    assert (2 * q - 1) * den == 2 * (q * den) - den;
    assert (2 * q + 1) * den == 2 * (q * den) + den;
    assert (2 * (q + 1) - 1) * den == 2 * (q * den) + den;
    assert (2 * (q + 1) + 1) * den == 2 * (q * den) + 3 * den;
  }

  lemma ScaledOrder(a: int, b: int, den: nat)
    requires den > 0
    ensures a < b <==> a * den < b * den
    ensures a == b <==> a * den == b * den
  {
    var gap := b - a;
    assert b * den - a * den == gap * den;
    if gap > 0 {
      assert gap * den > 0;
    } else if gap < 0 {
      assert (-gap) * den > 0;
    }
  }

  lemma RoundedIsUnique(num: nat, den: nat, m: nat, n: nat)
    requires den > 0 && IsRounded(num, den, m) && IsRounded(num, den, n)
    ensures m == n
  {
    ScaledOrder(2 * n - 1, 2 * m + 1, den);
    ScaledOrder(2 * m - 1, 2 * n + 1, den);
  }

  /** `RoundHalfEven` is the one value that is rounded to the nearest integer with ties to even. */
  lemma RoundingIsDetermined(num: nat, den: nat, n: nat)
    requires den > 0
    ensures IsRounded(num, den, n) <==> n == RoundHalfEven(num, den)
  {
    RoundsToNearestEven(num, den);
    if IsRounded(num, den, n) {
      RoundedIsUnique(num, den, n, RoundHalfEven(num, den));
    }
  }

  /** Rounding reaches an even bound exactly when the fraction is at most a half below it. */
  lemma RoundedAtLeast(num: nat, den: nat, bound: nat)
    requires den > 0 && bound > 0 && bound % 2 == 0
    ensures RoundHalfEven(num, den) >= bound <==> 2 * num >= (2 * bound - 1) * den
  {
    var n: int := RoundHalfEven(num, den);
    RoundsToNearestEven(num, den);
    ScaledOrder(2 * n - 1, 2 * bound - 1, den);
    ScaledOrder(2 * n + 1, 2 * bound - 1, den);
  }
}
