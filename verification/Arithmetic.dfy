/** The few nonlinear facts that several components need. */
module Arithmetic {
  lemma MulMono(a: nat, b: nat, k: nat)
    requires a <= b
    ensures a * k <= b * k
  {
  }

  /** Quotient and remainder are unique. */
  lemma ModUnique(x: int, m: nat, q: int, r: nat)
    requires m > 0 && x == q * m + r && r < m
    ensures x % m == r
  {
    var k := x / m - q;
    assert x == x / m * m + x % m;
    assert k * m == r - x % m == -(-k * m);
    if k > 0 {
      MulMono(1, k, m);
    } else if k < 0 {
      MulMono(1, -k, m);
    }
  }

  lemma ModShift(x: int, q: int, m: nat)
    requires m > 0
    ensures (q * m + x) % m == x % m
  {
    assert x == x / m * m + x % m;
    assert q * m + x / m * m == (q + x / m) * m;
    ModUnique(q * m + x, m, q + x / m, x % m);
  }
}
