/** The few facts about remainders that the ring indices need, for any capacity. */
module Modular {
  lemma MulAtLeast(x: int, n: int)
    requires 0 < n
    ensures x >= 1 ==> x * n >= n
    ensures x <= -1 ==> x * n <= -n
  {
    if x >= 1 {
      assert x * n == n + (x - 1) * n;
    } else if x <= -1 {
      assert x * n == -n + (x + 1) * n;
    }
  }

  lemma ModUnique(a: nat, q: nat, r: nat, n: nat)
    requires 0 < n && r < n && a == q * n + r
    ensures a % n == r
  {
    assert a == (a / n) * n + a % n;
    assert (a / n - q) * n == (a / n) * n - q * n;
    MulAtLeast(a / n - q, n);
  }

  lemma ModAddMultiple(a: nat, q: nat, n: nat)
    requires 0 < n
    ensures (a + q * n) % n == a % n
  {
    var q' := a / n;
    assert a == q' * n + a % n;
    assert a + q * n == (q' + q) * n + a % n;
    ModUnique(a + q * n, q' + q, a % n, n);
  }

  /** Reducing one summand first does not change a remainder. */
  lemma ModAdd(a: nat, b: nat, n: nat)
    requires 0 < n
    ensures (a % n + b) % n == (a + b) % n
  {
    var q := a / n;
    assert a + b == (a % n + b) + q * n;
    ModAddMultiple(a % n + b, q, n);
  }
}
