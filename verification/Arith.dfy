/** Remainders by a variable modulus. */
module Arith {

  lemma ModuloSmall(n: nat, m: nat)
    requires n < m
    ensures n % m == n
  {
  }

  lemma Multiple(d: int, m: nat)
    requires 0 - m < d * m < m
    ensures d == 0
  {
  }

  lemma ModuloUnique(n: nat, m: nat, q: int, r: nat)
    requires n == q * m + r && r < m
    ensures n % m == r
  {
    var d := n / m - q;
    assert n == (n / m) * m + n % m;
    assert d * m == r - n % m;
    Multiple(d, m);
  }

  lemma ModuloStep(n: nat, m: nat)
    requires 0 < m <= n
    ensures n % m == (n - m) % m
  {
    ModuloUnique(n, m, (n - m) / m + 1, (n - m) % m);
  }

  lemma ShiftModulo(a: nat, k: nat, m: nat)
    requires m > 0 && k % m == 0
    ensures (a + k) % m == a % m
  {
    var q := k / m;
    assert k == q * m;
    assert a + k == (a / m + q) * m + a % m;
    ModuloUnique(a + k, m, a / m + q, a % m);
  }

  /** Walking around a ring of `m` places. */
  lemma ModuloWrap(a: nat, m: nat)
    requires a < 2 * m
    ensures a % m == if a < m then a else a - m
  {
    if a < m {
      ModuloSmall(a, m);
    } else {
      ModuloUnique(a, m, 1, a - m);
    }
  }
}
