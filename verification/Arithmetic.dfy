/** Quotients and remainders. */
module Arithmetic {
  /** Quotient and remainder are unique. */
  lemma DivUnique(x: nat, q: int, r: nat, n: nat)
    requires r < n && x == q * n + r
    ensures x / n == q && x % n == r
  {
    var d := q - x / n;
    assert d * n == q * n - (x / n) * n;
    assert d * n == x % n - r;
    assert d > 0 ==> d * n >= n;
    assert d < 0 ==> d * n <= 0 - n;
  }

  lemma ModShift(q: nat, x: nat, n: nat)
    requires n > 0
    ensures (q * n + x) % n == x % n
    ensures (q * n + x) / n == q + x / n
  {
    assert q * n + x == (q + x / n) * n + x % n;
    DivUnique(q * n + x, q + x / n, x % n, n);
  }

  lemma AddModulo(v: nat, k: nat, n: nat)
    requires n > 0
    ensures (v % n + k) % n == (v + k) % n
  {
    var q := v / n;
    assert v + k == q * n + (v % n + k);
    ModShift(q, v % n + k, n);
  }

  lemma ModSmall(v: nat, n: nat)
    requires v <= n && n > 0
    ensures v % n == if v == n then 0 else v
  {
    if v == n { DivUnique(v, 1, 0, n); } else { DivUnique(v, 0, v, n); }
  }
}
