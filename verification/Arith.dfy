/** Facts about division and powers that several models share. */
module Arith {
  lemma MultipleBounds(n: int, d: int)
    requires n > 0
    ensures d >= 1 ==> n * d >= n
    ensures d <= -1 ==> n * d <= -n
  {}

  /** Quotient and remainder are determined by the division equation. */
  lemma DivModUnique(x: int, n: int, q: int, r: int)
    requires x == n * q + r && 0 <= r < n
    ensures x / n == q && x % n == r
  {
    var q', r' := x / n, x % n;
    assert x == n * q' + r' && 0 <= r' < n;
    assert n * (q' - q) == r - r';
    MultipleBounds(n, q' - q);
  }

  /** Multiples of the modulus do not matter. */
  lemma ModMultiple(r: int, q: int, n: int)
    requires n > 0
    ensures (n * q + r) % n == r % n
  {
    assert n * q + r == n * (q + r / n) + r % n;
    DivModUnique(n * q + r, n, q + r / n, r % n);
  }

  lemma ModSum(x: int, y: int, n: int)
    requires n > 0
    ensures (x % n + y) % n == (x + y) % n
  {
    ModMultiple(x % n + y, x / n, n);
    assert x + y == n * (x / n) + (x % n + y);
  }

  lemma ModSumRight(x: int, y: int, y': int, n: int)
    requires n > 0 && y' == y % n
    ensures (x + y') % n == (x + y) % n
  {
    ModSum(y, x, n);
    assert y % n + x == x + y' && y + x == x + y;
  }

  lemma ModSumLeft(x: int, x': int, y: int, n: int)
    requires n > 0 && x' == x % n
    ensures (x' + y) % n == (x + y) % n
  {
    ModSum(x, y, n);
  }

  lemma ModProduct(x: int, y: int, n: int)
    requires n > 0
    ensures (x % n) * y % n == x * y % n
  {
    var q, r := x / n, x % n;
    assert x == n * q + r;
    Spread(n, q, r, y);
    ModMultiple(r * y, q * y, n);
  }

  lemma Spread(n: int, q: int, r: int, y: int)
    ensures (n * q + r) * y == n * (q * y) + r * y
  {
    assert (n * q + r) * y == n * q * y + r * y;
  }
}
