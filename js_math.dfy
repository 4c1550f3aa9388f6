/**
 * JavaScript's `Math.round` applied to an exact quotient `n / d`.
 *
 * `Math.round(x)` is the integer nearest to `x`, with halves going towards
 * positive infinity (`Math.round(2.5) == 3`, `Math.round(-2.5) == -2`); that
 * is, `floor(x + 1/2)`. Here `x` is the rational `n / d`, so no floating
 * point is involved.
 */
module JsMath {

  /** Floor of the rational `a / b`. Dafny's `/` is Euclidean, which is the
      floor only for a positive divisor, so a negative divisor is flipped. */
  function FloorDiv(a: int, b: int): (q: int)
    requires b != 0
    ensures b > 0 ==> q * b <= a < q * b + b
    ensures b < 0 ==> q * b >= a > q * b + b
  {
    if b > 0 then a / b else (-a) / (-b)
  }

  /** `k` is `Math.round(n / d)`: `k - 1/2 <= n / d < k + 1/2`, written
      without division (both sides multiplied by `2 * d`, whose sign flips
      the inequalities when `d` is negative). */
  ghost predicate NearestHalfUp(k: int, n: int, d: int)
    requires d != 0
  {
    if d > 0 then 2 * (k * d) - d <= 2 * n < 2 * (k * d) + d
    else 2 * (k * d) + d < 2 * n <= 2 * (k * d) - d
  }

  /** `Math.round(n / d)` in exact integer arithmetic: `floor((2n + d) / 2d)`. */
  function Round(n: int, d: int): (k: int)
    requires d != 0
    ensures NearestHalfUp(k, n, d)
  {
    FloorDiv(2 * n + d, 2 * d)
  }

  /** The product of two non-negative integers is non-negative. */
  lemma MulNonneg(a: int, b: int)
    requires a >= 0 && b >= 0
    ensures a * b >= 0
  {
  }

  /** If `d * m < d` for a positive `d`, then `m < 1`. */
  lemma ScaleBelow(d: int, m: int)
    requires d > 0 && d * m < d
    ensures m < 1
  {
    if m >= 1 {
      MulNonneg(d, m - 1);
    }
  }

  /** At most one integer is the rounding of `n / d`. */
  lemma NearestHalfUpUnique(k1: int, k2: int, n: int, d: int)
    requires d != 0
    requires NearestHalfUp(k1, n, d) && NearestHalfUp(k2, n, d)
    ensures k1 == k2
  {
    // |2d| * (k1 - k2) lies strictly between -|2d| and |2d|
    var e := if d > 0 then 2 * d else -2 * d;
    var m := k1 - k2;
    assert k1 * d - k2 * d == m * d;
    assert e * m == (if d > 0 then 2 * (m * d) else -(2 * (m * d)));
    assert e * -m == -(e * m);
    ScaleBelow(e, m);
    ScaleBelow(e, -m);
  }

  /** `Round` is the only function meeting `Math.round`'s definition. */
  lemma RoundIsNearestHalfUp(k: int, n: int, d: int)
    requires d != 0
    ensures NearestHalfUp(k, n, d) <==> k == Round(n, d)
  {
    if NearestHalfUp(k, n, d) {
      NearestHalfUpUnique(k, Round(n, d), n, d);
    }
  }

  /** Scaling a share `x` of a positive total `s` by `r / s` and rounding
      stays within `[0, r]` when `0 <= x <= s` and `r >= 0`. */
  lemma RoundShareBounds(k: int, x: int, r: int, s: int)
    requires 0 <= x <= s && 0 < s && 0 <= r
    requires NearestHalfUp(k, x * r, s)
    ensures 0 <= k <= r
  {
    MulNonneg(x, r);
    MulNonneg(s - x, r);
    assert (s - x) * r == s * r - x * r;
    if k < 0 {
      assert (-k - 1) * s == -(k * s) - s;
      MulNonneg(-k - 1, s);
    }
    if k > r {
      assert (k - r - 1) * s == k * s - s * r - s;
      MulNonneg(k - r - 1, s);
    }
  }
}
