/**
 * Facts about truncating division on naturals that the solver does not
 * find unaided; used by the sensor arithmetic proofs.
 */
module Arith {

  /** Quotient and remainder of naturals are naturals, the remainder below the divisor. */
  lemma DivNonneg(x: nat, d: nat)
    requires 0 < d
    ensures 0 <= x / d && 0 <= x % d < d
  {
  }

  lemma MulMonotone(a: nat, b: nat, c: nat)
    requires a <= b
    ensures a * c <= b * c
  {
  }

  /** Quotient and remainder are determined by any decomposition x == q*d + r with 0 <= r < d. */
  lemma DivUnique(x: nat, d: nat, q: nat, r: nat)
    requires 0 < d && r < d
    requires x == q * d + r
    ensures x / d == q && x % d == r
  {
    DivNonneg(x, d);
    var q0 := x / d;
    if q0 < q {
      MulMonotone(q0 + 1, q, d);
    } else if q < q0 {
      MulMonotone(q + 1, q0, d);
    }
  }

  /** Division by a fixed positive divisor is monotone in the dividend. */
  lemma DivMonotone(a: nat, b: nat, d: nat)
    requires 0 < d && a <= b
    ensures a / d <= b / d
  {
    DivNonneg(a, d);
    DivNonneg(b, d);
    if b / d < a / d {
      MulMonotone(b / d + 1, a / d, d);
    }
  }

  /** Division of a fixed dividend is antitone in the positive divisor. */
  lemma DivAntitone(n: nat, p1: nat, p2: nat)
    requires 0 < p1 <= p2
    ensures n / p2 <= n / p1
  {
    DivNonneg(n, p1);
    DivNonneg(n, p2);
    var q1, q2 := n / p1, n / p2;
    MulMonotone(p1, p2, q2);
    if q1 < q2 {
      MulMonotone(q1 + 1, q2, p1);
    }
  }

  /** Adding a whole multiple of the divisor adds exactly that multiple to the quotient. */
  lemma DivAddMultiple(x: nat, d: nat, k: nat)
    requires 0 < d
    ensures (k * d + x) / d == k + x / d
    ensures (k * d + x) % d == x % d
  {
    DivNonneg(x, d);
    assert (k + x / d) * d == k * d + (x / d) * d;
    DivUnique(k * d + x, d, k + x / d, x % d);
  }

  /** The quotient of a value given as a whole multiple of the divisor plus a rest. */
  lemma DivOfSum(x: nat, d: nat, k: nat, y: nat)
    requires 0 < d && x == k * d + y
    ensures x / d == k + y / d && x % d == y % d
  {
    DivAddMultiple(y, d, k);
  }

  /** A dividend below k whole divisors has a quotient below k. */
  lemma DivLess(x: nat, d: nat, k: nat)
    requires 0 < d && x < k * d
    ensures x / d < k
  {
    if k <= x / d {
      MulMonotone(k, x / d, d);
    }
  }

  /** The quotient is the largest q with q * d <= n. */
  lemma DivBounds(n: nat, d: nat)
    requires 0 < d
    ensures (n / d) * d <= n < (n / d + 1) * d
  {
  }
}
