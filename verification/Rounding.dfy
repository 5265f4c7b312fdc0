/** `Decimal.quantize` with its default rounding, on a quotient of integers. */
module Rounding {
  /** `n / d` to the nearest integer, a tie going to the even one. */
  function RoundHalfEven(n: int, d: int): int
    requires 0 < d
  {
    var q, r := n / d, n % d;
    if 2 * r < d || (2 * r == d && q % 2 == 0) then q else q + 1
  }

  /** The result reaches `g` exactly from half-way below `g` on; at the half only for even `g`. */
  lemma RoundCut(n: int, d: int, g: int)
    requires 0 < d
    ensures g <= RoundHalfEven(n, d) <==> (2 * g - 1) * d < 2 * n || ((2 * g - 1) * d == 2 * n && g % 2 == 0)
  {
    var q, r := n / d, n % d;
    assert n == q * d + r && 0 <= r < d;
    Products(g, q, d);
    LinearCut(n, d, q, r, g, q * d, g * d);
  }

  lemma Products(g: int, q: int, d: int)
    requires 0 < d
    ensures (2 * g - 1) * d == 2 * (g * d) - d
    ensures g <= q ==> g * d <= q * d
    ensures g == q + 1 ==> g * d == q * d + d
    ensures q + 2 <= g ==> q * d + 2 * d <= g * d
  {
    if g <= q {
      Scale(g, q, d);
    }
    if q + 2 <= g {
      Scale(q + 2, g, d);
      assert (q + 2) * d == q * d + 2 * d;
    }
  }

  // The same with the two products given, where only linear arithmetic is left.
  lemma LinearCut(n: int, d: int, q: int, r: int, g: int, qd: int, gd: int)
    requires n == qd + r && 0 <= r < d
    requires (g <= q ==> gd <= qd) && (g == q + 1 ==> gd == qd + d) && (q + 2 <= g ==> qd + 2 * d <= gd)
    ensures g <= (if 2 * r < d || (2 * r == d && q % 2 == 0) then q else q + 1)
      <==> 2 * gd - d < 2 * n || (2 * gd - d == 2 * n && g % 2 == 0)
  {
  }

  lemma Scale(a: int, b: int, d: int)
    requires a <= b && 0 < d
    ensures a * d <= b * d
  {
    assert b * d - a * d == (b - a) * d;
  }

  lemma RoundMonotone(n: int, m: int, d: int)
    requires n <= m && 0 < d
    ensures RoundHalfEven(n, d) <= RoundHalfEven(m, d)
  {
    RoundCut(n, d, RoundHalfEven(n, d));
    RoundCut(m, d, RoundHalfEven(n, d));
  }

  /** `x` is a nearest integer to `n / d`, and of two the even one. */
  predicate IsNearest(x: int, n: int, d: int) {
    && -d <= 2 * (n - x * d) <= d
    && (2 * (n - x * d) in {-d, d} ==> x % 2 == 0)
  }

  lemma RoundIsNearest(n: int, d: int)
    requires 0 < d
    ensures IsNearest(RoundHalfEven(n, d), n, d)
  {
    var q, r := n / d, n % d;
    assert n == q * d + r && (q + 1) * d == q * d + d;
  }

  /** There is one such integer. */
  lemma NearestIsOne(x: int, y: int, n: int, d: int)
    requires 0 < d && IsNearest(x, n, d) && IsNearest(y, n, d)
    ensures x == y
  {
    Apart(x, y, d);
    Apart(y, x, d);
    LinearOne(x, y, n, d, x * d, y * d);
  }

  lemma Apart(x: int, y: int, d: int)
    requires 0 < d
    ensures x == y + 1 ==> x * d == y * d + d
    ensures y + 2 <= x ==> y * d + 2 * d <= x * d
  {
    if y + 2 <= x {
      Scale(y + 2, x, d);
      assert (y + 2) * d == y * d + 2 * d;
    }
  }

  lemma LinearOne(x: int, y: int, n: int, d: int, xd: int, yd: int)
    requires 0 < d && (x == y + 1 ==> xd == yd + d) && (y + 2 <= x ==> yd + 2 * d <= xd)
    requires (y == x + 1 ==> yd == xd + d) && (x + 2 <= y ==> xd + 2 * d <= yd)
    requires -d <= 2 * (n - xd) <= d && (2 * (n - xd) in {-d, d} ==> x % 2 == 0)
    requires -d <= 2 * (n - yd) <= d && (2 * (n - yd) in {-d, d} ==> y % 2 == 0)
    ensures x == y
  {
  }
}
