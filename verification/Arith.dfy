/** The few facts about products and quotients that the solver is not asked to find itself. */
module Arith {

  lemma MulMonotone(a: int, b: int, c: nat)
    ensures a <= b ==> a * c <= b * c
  {
  }

  lemma Distribute(a: int, b: int, c: int)
    ensures (a + b) * c == a * c + b * c
  {
  }

  /** Quotient and remainder are determined by the decomposition. */
  lemma DivModUnique(q: int, m: nat, d: nat)
    requires m < d
    ensures (q * d + m) / d == q && (q * d + m) % d == m
  {
    var n := q * d + m;
    var q', m' := n / d, n % d;
    assert n == q' * d + m';
    MulMonotone(q + 1, q', d);
    MulMonotone(q' + 1, q, d);
    Distribute(q, 1, d);
    Distribute(q', 1, d);
  }

  lemma Quotient(v: nat, d: nat)
    requires d > 0
    ensures v / d >= 0 && v % d < d && v == v / d * d + v % d
  {
    if v / d < 0 {
      MulMonotone(v / d, -1, d);
    }
  }

  lemma Smaller(n: nat, d: nat)
    requires 2 <= d <= n
    ensures 0 <= n / d < n && n % d < n
  {
    Quotient(n, d);
    MulMonotone(2, d, n / d);
  }

  /** A two-digit number is below the product of the digit ranges. */
  lemma DigitsBelow(q: nat, count: nat, m: nat, d: nat)
    requires m < d
    ensures q < count <==> q * d + m < count * d
  {
    MulMonotone(q + 1, count, d);
    MulMonotone(count, q, d);
    Distribute(q, 1, d);
  }

  // ----- Powers of two -----

  function Pow2(k: nat): (p: nat)
    ensures p >= 1
  {
    if k == 0 then 1 else 2 * Pow2(k - 1)
  }

  lemma Double(a: nat, b: nat)
    ensures 2 * a * b == 2 * (a * b)
  {
  }

  lemma {:induction false} Pow2Add(j: nat, k: nat)
    ensures Pow2(j + k) == Pow2(j) * Pow2(k)
    decreases j
  {
    if j > 0 {
      Pow2Add(j - 1, k);
      Double(Pow2(j - 1), Pow2(k));
    }
  }

  lemma {:induction false} Pow2Monotone(j: nat, k: nat)
    requires j <= k
    ensures Pow2(j) <= Pow2(k)
    decreases k
  {
    if j < k { Pow2Monotone(j, k - 1); }
  }
}
