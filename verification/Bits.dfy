/**
 Python's bit operations on unbounded integers in two's complement, and the arithmetic they amount to
 in the places where the tools use them.
 */
module Bits {
  import opened Arith

  function Pow2(n: nat): (p: int)
    ensures p > 0
  {
    if n == 0 then 1 else 2 * Pow2(n - 1)
  }

  lemma {:induction false} Pow2Add(m: nat, n: nat)
    ensures Pow2(m + n) == Pow2(m) * Pow2(n)
  {
    if m > 0 {
      Pow2Add(m - 1, n);
    }
  }

  function Size(a: int): nat { if a >= 0 then a else -a - 1 }

  function BitOr(a: int, b: int): int
    decreases Size(a) + Size(b)
  {
    if (a == 0 || a == -1) && (b == 0 || b == -1) then if a == 0 && b == 0 then 0 else -1
    else 2 * BitOr(a / 2, b / 2) + if a % 2 == 1 || b % 2 == 1 then 1 else 0
  }

  function BitAnd(a: int, b: int): int
    decreases Size(a) + Size(b)
  {
    if (a == 0 || a == -1) && (b == 0 || b == -1) then if a == -1 && b == -1 then -1 else 0
    else 2 * BitAnd(a / 2, b / 2) + if a % 2 == 1 && b % 2 == 1 then 1 else 0
  }

  lemma {:induction false} OrCommutes(a: int, b: int)
    ensures BitOr(a, b) == BitOr(b, a)
    decreases Size(a) + Size(b)
  {
    if !((a == 0 || a == -1) && (b == 0 || b == -1)) {
      OrCommutes(a / 2, b / 2);
    }
  }

  lemma {:induction false} OrZero(b: int)
    ensures BitOr(0, b) == b
    decreases Size(b)
  {
    if b != 0 && b != -1 {
      OrZero(b / 2);
    }
  }

  lemma {:induction false} OrOnes(a: int)
    ensures BitOr(a, -1) == -1
    decreases Size(a)
  {
    if a != 0 && a != -1 {
      OrOnes(a / 2);
    }
  }

  lemma {:induction false} AndZero(a: int)
    ensures BitAnd(a, 0) == 0
    decreases Size(a)
  {
    if a != 0 && a != -1 {
      AndZero(a / 2);
    }
  }

  /** The lowest bit and the rest. */
  lemma ModTwice(x: int, p: int)
    requires p > 0
    ensures x % (2 * p) == 2 * ((x / 2) % p) + x % 2
    ensures x / (2 * p) == (x / 2) / p
  {
    var h := x / 2;
    assert h == (h / p) * p + h % p;
    assert x == (h / p) * (2 * p) + (2 * (h % p) + x % 2) by {
      assert (h / p) * (2 * p) == 2 * ((h / p) * p);
    }
    DivModUnique(x, 2 * p, h / p, 2 * (h % p) + x % 2);
  }

  /** Masking with `2^k - 1` is the remainder modulo `2^k`, for negative numbers too. */
  lemma {:induction false} AndMask(x: int, k: nat)
    ensures BitAnd(x, Pow2(k) - 1) == x % Pow2(k)
    decreases k
  {
    if k == 0 {
      AndZero(x);
    } else {
      var p := Pow2(k - 1);
      AndMask(x / 2, k - 1);
      ModTwice(x, p);
      assert (2 * p - 1) / 2 == p - 1 && (2 * p - 1) % 2 == 1;
    }
  }

  /** Testing one bit. */
  lemma {:induction false} AndBit(x: int, k: nat)
    ensures BitAnd(x, Pow2(k)) == (x / Pow2(k)) % 2 * Pow2(k)
    decreases k
  {
    if k == 0 {
      AndZero(x / 2);
      assert x / 1 == x;
    } else {
      AndBit(x / 2, k - 1);
      ModTwice(x, Pow2(k - 1));
    }
  }

  lemma AndBitIs(x: int, k: nat, p: int)
    requires p == Pow2(k)
    ensures p > 0 && BitAnd(x, p) == x / p % 2 * p
  {
    AndBit(x, k);
  }

  /** Setting bits above the ones in use is addition. */
  lemma {:induction false} OrAbove(a: nat, b: nat, k: nat)
    requires a < Pow2(k)
    ensures BitOr(a, b * Pow2(k)) == a + b * Pow2(k)
    decreases k
  {
    if k == 0 {
      OrZero(b);
    } else {
      var h := b * Pow2(k - 1);
      OrAbove(a / 2, b, k - 1);
      Regroup(b, Pow2(k - 1));
      OrDouble(a, h);
    }
  }

  lemma Regroup(b: int, p: int)
    ensures b * (2 * p) == 2 * (b * p)
  {
  }

  lemma OrDouble(a: int, h: int)
    ensures BitOr(a, 2 * h) == 2 * BitOr(a / 2, h) + a % 2
  {
    OrStep(a, 2 * h);
  }

  lemma OrStep(a: int, b: int)
    ensures BitOr(a, b) == 2 * BitOr(a / 2, b / 2) + if a % 2 == 1 || b % 2 == 1 then 1 else 0
  {
  }

  /** Setting every bit from `k` on leaves the remainder, minus `2^k`. */
  lemma {:induction false} OrHighOnes(x: int, k: nat)
    ensures BitOr(x, -Pow2(k)) == x % Pow2(k) - Pow2(k)
    decreases k
  {
    if k == 0 {
      OrOnes(x);
    } else {
      var p := Pow2(k - 1);
      OrHighOnes(x / 2, k - 1);
      ModTwice(x, p);
      OrDouble(x, -p);
    }
  }
}
