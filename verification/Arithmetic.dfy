/** Quotient and remainder are unique. */
module Arithmetic {
  lemma Minus(m: int, a: int, b: int)
    ensures m * a - m * b == m * (a - b)
  {}

  lemma Positive(m: int, k: int)
    requires m > 0 && k >= 1
    ensures m * k >= m
  {}

  lemma Negative(m: int, k: int)
    requires m > 0 && k <= -1
    ensures m * k <= -m
  {}

  lemma Unique(m: int, q: int, p: int, r: int, s: int)
    requires m * q + r == m * p + s && 0 <= r < m && 0 <= s < m
    ensures q == p && r == s
  {
    Minus(m, q, p);
    var x := m * (q - p);
    assert x == s - r;
    if q - p >= 1 { Positive(m, q - p); }
    if q - p <= -1 { Negative(m, q - p); }
  }

  lemma DivMod(n: int, m: int)
    requires m > 0
    ensures n == m * (n / m) + n % m && 0 <= n % m < m
  {}

  lemma ModIs(n: int, m: int, q: int, r: int)
    requires n == m * q + r && 0 <= r < m
    ensures n / m == q && n % m == r
  {
    DivMod(n, m);
    Unique(m, q, n / m, r, n % m);
  }

  lemma FourBytes(n: nat)
    ensures ((n / 0x100_0000 * 0x100 + n / 0x1_0000 % 0x100) * 0x100 + n / 0x100 % 0x100) * 0x100 + n % 0x100 == n
  {
    var a := n / 0x100;
    var b := a / 0x100;
    assert b == n / 0x1_0000 && b / 0x100 == n / 0x100_0000;
  }
}
