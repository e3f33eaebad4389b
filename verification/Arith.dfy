/**
 Facts about products and remainders that the solver does not find by itself.
 */
module Arith {

  lemma MulMono(a: int, x: int, y: int)
    requires a >= 0 && x <= y
    ensures a * x <= a * y && x * a <= y * a
  {
    assert a * (y - x) >= 0;
  }

  lemma UniqueRemainder(x: int, n: int, q: int, r: int)
    requires n > 0 && 0 <= r < n && x == n * q + r
    ensures x % n == r && x / n == q
  {
    var q' := x / n;
    assert x == n * q' + x % n;
    assert n * (q + 1) == n * q + n && n * (q' + 1) == n * q' + n;
    if q < q' {
      MulMono(n, q + 1, q');
    } else if q > q' {
      MulMono(n, q' + 1, q);
    }
  }

  lemma MultipleDropsOut(n: int, k: int, z: int)
    requires n > 0
    ensures (n * k + z) % n == z % n
  {
    assert z == n * (z / n) + z % n;
    assert n * k + z == n * (k + z / n) + z % n;
    UniqueRemainder(n * k + z, n, k + z / n, z % n);
  }

  /** A remainder may be taken early. */
  lemma ModShift(x: int, y: int, n: int)
    requires n > 0
    ensures (x % n + y) % n == (x + y) % n
  {
    assert x + y == n * (x / n) + (x % n + y);
    MultipleDropsOut(n, x / n, x % n + y);
  }

  lemma ModOnce(x: int, n: int)
    requires 0 < n && 0 <= x < 2 * n
    ensures x % n == if x < n then x else x - n
  {
    if x < n {
      UniqueRemainder(x, n, 0, x);
    } else {
      UniqueRemainder(x, n, 1, x - n);
    }
  }

  /** x / n is the greatest q with q * n <= x. */
  lemma DivGreatest(x: int, n: int, q: int)
    requires n > 0
    ensures q * n <= x <==> q <= x / n
  {
    assert x == n * (x / n) + x % n;
    if q <= x / n {
      MulMono(n, q, x / n);
    } else {
      MulMono(n, x / n + 1, q);
      assert n * (x / n + 1) == n * (x / n) + n;
    }
  }

  lemma DivMono(x: int, y: int, n: int)
    requires n > 0 && x <= y
    ensures x / n <= y / n
  {
    DivGreatest(x, n, x / n);
    DivGreatest(y, n, x / n);
  }
}
