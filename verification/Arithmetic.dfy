/** Powers of two and uniqueness of quotient and remainder. */
module Arithmetic {

  function Pow2(n: nat): nat
    ensures Pow2(n) > 0
  {
    if n == 0 then 1 else 2 * Pow2(n - 1)
  }

  lemma MultipleAtLeast(m: nat, d: int)
    requires m > 0
    ensures d >= 1 ==> m * d >= m
    ensures d <= -1 ==> m * d <= 0 - m
  {
    if d >= 1 {
      assert m * d == m * (d - 1) + m;
    } else if d <= -1 {
      assert m * d == m * (d + 1) - m;
    }
  }

  lemma ModUnique(x: int, m: nat, q: int, r: nat)
    requires m > 0 && x == m * q + r && r < m
    ensures x % m == r && x / m == q
  {
    var q', r' := x / m, x % m;
    assert x == m * q' + r';
    assert m * (q - q') == m * q - m * q';
    MultipleAtLeast(m, q - q');
  }

  lemma ModOfSum(p: nat, c: int, a: int)
    requires p > 0
    ensures (p * c + a) % p == a % p
  {
    var q, r := a / p, a % p;
    assert p * (c + q) == p * c + p * q;
    ModUnique(p * c + a, p, c + q, r);
  }
}
