/** Division facts that the solver does not find unaided. */
module Arith {

  lemma MulMono(a: int, b: int, p: int)
    requires a <= b && p >= 0
    ensures a * p <= b * p
  {
  }

  /** Quotient and remainder are determined by the division equation. */
  lemma DivModUnique(x: int, p: int, q: int, r: int)
    requires 0 <= r < p && x == q * p + r
    ensures x / p == q && x % p == r
  {
    var q', r' := x / p, x % p;
    assert x == q' * p + r';
    assert (q' + 1) * p == q' * p + p && (q + 1) * p == q * p + p;
    if q' < q {
      MulMono(q' + 1, q, p);
    } else if q < q' {
      MulMono(q + 1, q', p);
    }
  }

  /** Counting up by one either bumps the remainder or wraps it. */
  lemma DivModStep(a: nat, p: nat)
    requires p > 0
    ensures (a + 1) % p == if a % p + 1 == p then 0 else a % p + 1
    ensures (a + 1) / p == if a % p + 1 == p then a / p + 1 else a / p
  {
    var q, r := a / p, a % p;
    if r + 1 == p {
      assert (q + 1) * p == q * p + p;
      DivModUnique(a + 1, p, q + 1, 0);
    } else {
      DivModUnique(a + 1, p, q, r + 1);
    }
  }

  lemma DivMono(a: int, b: int, p: int)
    requires a <= b && p > 0
    ensures a / p <= b / p
  {
    var q, q' := a / p, b / p;
    assert a == q * p + a % p && b == q' * p + b % p;
    assert (q' + 1) * p == q' * p + p;
    if q' < q {
      MulMono(q' + 1, q, p);
    }
  }
}
