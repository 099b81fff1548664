/** Products and quotients, one fact each. */
module Arithmetic {

  // ------------------------------------------------------------------ reals

  lemma DivTimes(a: real, b: real)
    requires b != 0.0
    ensures b * (a / b) == a
  {
  }

  lemma MulLess(k: real, a: real, b: real)
    requires 0.0 < k && a < b
    ensures k * a < k * b
  {
  }

  lemma MulMono(a: real, b: real, k: real)
    requires a <= b && 0.0 <= k
    ensures a * k <= b * k
  {
  }

  lemma DivLess(a: real, b: real, c: real)
    requires 0.0 <= a && 0.0 < b <= c
    ensures a / c <= a / b
  {
    DivTimes(a, b);
    DivTimes(a, c);
    var q, r := a / b, a / c;
    if q < r {
      MulLess(b, q, r);
      MulMono(b, c, r);
    }
  }

  lemma DivPositive(a: real, b: real)
    requires 0.0 < a && 0.0 < b
    ensures 0.0 < a / b
  {
    DivTimes(a, b);
    if a / b <= 0.0 {
      MulMono(a / b, 0.0, b);
    }
  }

  lemma DivMono(a: real, b: real, k: real)
    requires a <= b && 0.0 < k
    ensures a / k <= b / k
  {
    var p, q := a / k, b / k;
    DivTimes(a, k);
    DivTimes(b, k);
    if q < p {
      MulLess(k, q, p);
    }
  }

  lemma CancelLess(o: real, a: real, b: real)
    requires 0.0 < o && o * a <= o * b
    ensures a <= b
  {
    if b < a {
      MulLess(o, b, a);
    }
  }

  lemma MulPositive(a: real, b: real, product: real)
    requires 0.0 < a && 0.0 < b && product == a * b
    ensures 0.0 < product
  {
    MulLess(a, 0.0, b);
  }

  lemma SquarePositive(x: real, square: real)
    requires square == x * x
    ensures if x == 0.0 then square == 0.0 else 0.0 < square
  {
    if x < 0.0 {
      assert (-x) * (-x) == square;
      MulPositive(-x, -x, square);
    } else if 0.0 < x {
      MulPositive(x, x, square);
    }
  }

  lemma Distribute(j: real, a: real, b: real)
    ensures j * (a + b) == j * a + j * b
  {
  }

  // --------------------------------------------------------------- integers

  lemma MulAtLeast(n: int, d: int)
    requires 0 < n
    ensures (1 <= d ==> n <= n * d) && (d <= -1 ==> n * d <= -n)
  {
  }

  lemma MulMonoInt(a: int, b: int, n: int)
    requires a <= b && 0 <= n
    ensures a * n <= b * n
  {
  }

  lemma DivUnique(a: int, n: int, q: int, r: int)
    requires 0 < n && a == n * q + r && 0 <= r < n
    ensures a / n == q && a % n == r
  {
    assert n * (q - a / n) == a % n - r;
    MulAtLeast(n, q - a / n);
  }
}
