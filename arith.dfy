/** Small facts about multiplication and division that the solver does not
    find by itself. */
module Arith {
  lemma Distrib(k: int, a: int, d: int)
    ensures k * (a + d) == k * a + k * d
  {
  }

  lemma {:induction false} MulAtLeast(k: nat, d: nat)
    requires d >= 1
    ensures k * d >= k
    decreases d
  {
    if d > 1 {
      MulAtLeast(k, d - 1);
      Distrib(k, d - 1, 1);
    }
  }

  /** Multiplying by a natural number is monotone. */
  lemma MulMono(a: nat, b: nat, k: nat)
    requires a <= b
    ensures a * k <= b * k
  {
    if a < b {
      MulAtLeast(k, b - a);
      Distrib(k, a, b - a);
    }
  }

  /** Division undoes multiplication. */
  lemma DivExact(k: nat, r: nat)
    requires k >= 1
    ensures (k * r) / k == r && (k * r) % k == 0
  {
    var q, m := (k * r) / k, (k * r) % k;
    assert k * r == k * q + m;
    if q < r {
      MulAtLeast(k, r - q);
      Distrib(k, q, r - q);
      assert false;
    } else if q > r {
      MulAtLeast(k, q - r);
      Distrib(k, r, q - r);
      assert false;
    }
  }

  /** A divisor no larger than `n` goes into it at least once. */
  lemma DivAtLeastOne(n: nat, k: nat)
    requires 1 <= k <= n
    ensures n / k >= 1
  {
    var q := n / k;
    assert n == k * q + n % k;
    if q == 0 {
      assert false;
    }
  }
}
