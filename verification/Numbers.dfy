/** The larger and the smaller of two numbers, and quotients and remainders. */
module Numbers {
  function Max(a: int, b: int): int {
    if a >= b then a else b
  }

  function Min(a: int, b: int): int {
    if a <= b then a else b
  }

  /** The quotient and remainder of a number between two multiples of the divisor. */
  lemma Division(a: int, q: int, d: int)
    requires d > 0 && q * d <= a < q * d + d
    ensures a / d == q && a % d == a - q * d
  {
    var e := a / d - q;
    assert a == (a / d) * d + a % d;
    assert e * d == a - a % d - q * d;
    assert e >= 1 ==> e * d >= d;
    assert e <= -1 ==> e * d + d <= 0;
  }

  lemma DivisionMonotone(a: int, b: int, d: int)
    requires d > 0 && a <= b
    ensures a / d <= b / d
  {
    assert a == (a / d) * d + a % d && b == (b / d) * d + b % d;
    var e := b / d - a / d;
    assert e * d == b - a - (b % d - a % d);
    assert e <= -1 ==> e * d + d <= 0;
  }

  /** Different numbers with the same remainder are at least the divisor apart. */
  lemma SameRemainder(a: int, b: int, n: int)
    requires n > 0 && a < b && a % n == b % n
    ensures b >= a + n
  {
    assert a == (a / n) * n + a % n && b == (b / n) * n + b % n;
    var d := b / n - a / n;
    assert d * n == b - a;
    assert d <= 0 ==> d * n <= 0;
    assert d >= 1 ==> d * n >= n;
  }
}
