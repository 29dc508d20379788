// Quotients and remainders are unique.

module Division {
  lemma DivModUnique(n: int, m: int, q: int, r: int)
    requires m > 0 && n == m * q + r && 0 <= r < m
    ensures n % m == r && n / m == q
  {
    var d := q - n / m;
    assert m * d == n % m - r by { assert n == m * (n / m) + n % m; assert m * q - m * (n / m) == m * d; }
    if d >= 1 { MulAtLeast(m, d); }
    if d <= -1 { MulAtLeast(m, -d); }
  }

  lemma MulAtLeast(m: int, d: int)
    requires m > 0 && d >= 1
    ensures m * d >= m
  {
    assert m * (d - 1) >= 0;
  }

  lemma SmallMod(a: nat, n: nat)
    requires a < n
    ensures a % n == a && a / n == 0
  {
    DivModUnique(a, n, 0, a);
  }

  lemma ModNext(a: int, n: nat)
    requires n > 0
    ensures (a + 1) % n == if a % n == n - 1 then 0 else a % n + 1
    ensures (a + 1) / n == if a % n == n - 1 then a / n + 1 else a / n
  {
    var q, r := a / n, a % n;
    if r == n - 1 {
      assert a + 1 == n * (q + 1) + 0;
      DivModUnique(a + 1, n, q + 1, 0);
    } else {
      DivModUnique(a + 1, n, q, r + 1);
    }
  }

  lemma DivParts(n: int, m: int)
    requires m > 0
    ensures n == m * (n / m) + n % m && 0 <= n % m < m
  {}

  lemma SameProduct(m: int, a: int, b: int)
    requires a == b
    ensures m * a == m * b
  {}

  // Two digits, the lower one below `low`.
  lemma Digits(d: int, low: nat, n: nat)
    requires low > 0 && n > 0
    ensures d % (low * n) == d / low % n * low + d % low
  {
    DivParts(d, low);
    DivParts(d / low, n);
    TwoDigits(d, low, n, d / low, d % low, d / low / n, d / low % n);
  }

  lemma TwoDigits(d: int, low: nat, n: nat, e: int, t: int, q: int, r: int)
    requires d == low * e + t && e == n * q + r && 0 <= t < low && 0 <= r < n
    ensures d % (low * n) == r * low + t
  {
    SameProduct(low, e, n * q + r);
    Combined(low, n, q, r, t);
    DivModUnique(d, low * n, q, r * low + t);
  }

  lemma ProductOfSum(a: int, b: int, c: int)
    ensures a * (b + c) == a * b + a * c
  {}

  lemma Associative(a: int, b: int, c: int)
    ensures a * (b * c) == (a * b) * c
  {}

  lemma NotNegative(a: nat, b: nat)
    ensures a * b >= 0 && b * a == a * b
  {}

  lemma Combined(low: nat, n: nat, q: int, r: nat, t: nat)
    requires r < n && t < low
    ensures low * (n * q + r) + t == (low * n) * q + (r * low + t)
    ensures 0 <= r * low + t < low * n
  {
    ProductOfSum(low, n * q, r);
    Associative(low, n, q);
    NotNegative(n - 1 - r, low);
    ProductOfSum(low, n - 1 - r, r + 1);
  }
}
