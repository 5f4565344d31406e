/** The memory latency sweep: range sizes that grow by quarters of an octave, steered by a power-of-two test. */
module RangeSweep {
  import opened Bits

  // ---------- the power-of-two test ----------

  predicate IsPow2(n: int) { n != 0 && BitAnd(n, n - 1) == 0 }

  ghost predicate PowerOfTwo(n: int) { exists k: nat :: n == Pow2(k) }

  lemma {:induction false} AndSelf(a: int)
    ensures BitAnd(a, a) == a
    decreases Size(a)
  {
    if a != 0 && a != -1 {
      AndSelf(a / 2);
    }
  }

  lemma {:induction false} AndNegative(a: int, b: int)
    requires a < 0 && b < 0
    ensures BitAnd(a, b) < 0
    decreases Size(a) + Size(b)
  {
    if a != -1 || b != -1 {
      AndNegative(a / 2, b / 2);
    }
  }

  lemma HalfPower(n: int)
    requires n > 0 && n % 2 == 0
    ensures PowerOfTwo(n) <==> PowerOfTwo(n / 2)
  {
    if k: nat :| n == Pow2(k) {
      assert k > 0 && n / 2 == Pow2(k - 1);
    }
    if k: nat :| n / 2 == Pow2(k) {
      assert n == Pow2(k + 1);
    }
  }

  lemma OddPower(n: int)
    requires n > 0 && n % 2 == 1
    ensures PowerOfTwo(n) <==> n == 1
  {
    if k: nat :| n == Pow2(k) {
      assert k == 0;
    }
    assert Pow2(0) == 1;
  }

  lemma {:induction false} IsPow2Positive(n: int)
    requires n > 0
    ensures IsPow2(n) <==> PowerOfTwo(n)
  {
    if n == 1 {
      assert Pow2(0) == 1 && BitAnd(1, 0) == 2 * BitAnd(0, 0);
    } else if n % 2 == 0 {
      assert (n - 1) / 2 == n / 2 - 1;
      assert BitAnd(n, n - 1) == 2 * BitAnd(n / 2, n / 2 - 1);
      IsPow2Positive(n / 2);
      HalfPower(n);
    } else {
      assert (n - 1) / 2 == n / 2;
      assert BitAnd(n, n - 1) == 2 * BitAnd(n / 2, n / 2);
      AndSelf(n / 2);
      OddPower(n);
    }
  }

  /** The bit trick tells the powers of two, for every whole number. */
  lemma IsPow2Exact(n: int)
    ensures IsPow2(n) <==> PowerOfTwo(n)
  {
    if n > 0 {
      IsPow2Positive(n);
    } else if n < 0 {
      AndNegative(n, n - 1);
    }
  }

  // ---------- the points of the sweep ----------

  /** Four points per octave, from 4096 on: 4, 5, 6 and 7 quarters of it. */
  function Point(i: nat): int { (4 + i % 4) * Pow2(10 + i / 4) }

  /** A quarter of the octave that a point lies in. */
  function StepAt(i: nat): int { Pow2(10 + i / 4) }

  lemma StepNext(i: nat)
    ensures StepAt(i + 1) == if (i + 1) % 4 == 0 then 2 * StepAt(i) else StepAt(i)
  {
  }

  lemma PointStep(i: nat)
    ensures Point(i + 1) == Point(i) + StepAt(i) && StepAt(i) > 0
  {
    StepNext(i);
    var p := StepAt(i);
    if i % 4 == 3 {
      assert (i + 1) % 4 == 0 && Point(i + 1) == 4 * (2 * p);
    } else {
      assert (i + 1) % 4 == i % 4 + 1;
      OneMore(4 + i % 4, p);
    }
  }

  lemma OneMore(m: int, p: int)
    ensures (m + 1) * p == m * p + p
  {
  }

  lemma {:induction false} PointGrows(i: nat, j: nat)
    requires i < j
    ensures Point(i) < Point(j)
    decreases j
  {
    PointStep(j - 1);
    if i < j - 1 {
      PointGrows(i, j - 1);
    }
  }

  lemma {:induction false} ScaledPower(m: int, k: nat)
    requires m > 0
    ensures PowerOfTwo(m * Pow2(k)) <==> PowerOfTwo(m)
  {
    if k > 0 {
      ScaledPower(m, k - 1);
      var x := m * Pow2(k - 1);
      assert m * Pow2(k) == 2 * x;
      HalfPower(2 * x);
    } else {
      assert m * Pow2(0) == m;
    }
  }

  lemma SmallPowers(m: int)
    requires 4 <= m <= 7
    ensures PowerOfTwo(m) <==> m == 4
  {
    assert Pow2(2) == 4;
    if m == 6 {
      HalfPower(6);
      OddPower(3);
    } else if m != 4 {
      OddPower(m);
    }
  }

  /** Exactly the first point of each octave is a power of two. */
  lemma PointPower(i: nat)
    ensures PowerOfTwo(Point(i)) <==> i % 4 == 0
  {
    ScaledPower(4 + i % 4, 10 + i / 4);
    SmallPowers(4 + i % 4);
  }

  lemma OctaveStart(k: nat)
    requires k >= 12
    ensures Point(4 * (k - 12)) == Pow2(k)
  {
    OctavePoint(k - 12);
    FourTimes(k - 2);
  }

  lemma OctavePoint(q: nat)
    ensures Point(4 * q) == 4 * Pow2(10 + q)
  {
    assert 4 * q % 4 == 0 && 4 * q / 4 == q;
  }

  lemma FourTimes(k: nat)
    ensures Pow2(k + 2) == 4 * Pow2(k)
  {
    assert Pow2(k + 2) == 2 * Pow2(k + 1) && Pow2(k + 1) == 2 * Pow2(k);
  }

  // ---------- the loop ----------

  /** All points up to and including the first that reaches the maximum. */
  ghost predicate SweepOf(ranges: seq<int>, maxRange: int) {
    && ranges != [] && (forall i :: 0 <= i < |ranges| ==> ranges[i] == Point(i))
    && maxRange <= ranges[|ranges| - 1]
    && (forall i :: 0 <= i < |ranges| - 1 ==> ranges[i] < maxRange)
  }

  method Sweep(maxRange: int) returns (ranges: seq<int>)
    ensures SweepOf(ranges, maxRange)
  {
    ranges := [4096];
    var step := 1024;
    FirstPoint();
    while ranges[|ranges| - 1] < maxRange
      invariant ranges != [] && (forall i :: 0 <= i < |ranges| ==> ranges[i] == Point(i))
      invariant step == StepAt(|ranges| - 1)
      invariant forall i :: 0 <= i < |ranges| - 1 ==> ranges[i] < maxRange
      decreases maxRange - ranges[|ranges| - 1]
    {
      NextPoint(|ranges| - 1);
      var newRange := ranges[|ranges| - 1] + step;
      if IsPow2(newRange) {
        step := step * 2;
      }
      ranges := ranges + [newRange];
    }
  }

  lemma FirstPoint()
    ensures Point(0) == 4096 && StepAt(0) == 1024
  {
    assert Pow2(4) == 16 && Pow2(8) == 16 * Pow2(4) && Pow2(10) == 4 * Pow2(8);
  }

  /** From one point to the next, and how the test steers the step. */
  lemma NextPoint(n: nat)
    ensures Point(n) < Point(n + 1) == Point(n) + StepAt(n)
    ensures StepAt(n + 1) == if IsPow2(Point(n + 1)) then StepAt(n) * 2 else StepAt(n)
  {
    PointStep(n);
    StepNext(n);
    PointPower(n + 1);
    IsPow2Exact(Point(n + 1));
  }

  /** Every power of two from 4096 up to the maximum is measured. */
  lemma PowersMeasured(ranges: seq<int>, maxRange: int, k: nat)
    requires SweepOf(ranges, maxRange) && k >= 12 && Pow2(k) <= maxRange
    ensures Pow2(k) in ranges
  {
    var i := 4 * (k - 12);
    OctaveStart(k);
    if |ranges| - 1 < i {
      PointGrows(|ranges| - 1, i);
    }
    assert ranges[i] == Point(i);
  }

  lemma LastPoint(a: seq<int>, maxRange: int, i: nat)
    requires SweepOf(a, maxRange) && maxRange <= Point(i)
    ensures |a| - 1 <= i
  {
    forall j | 0 <= j < |a| - 1 ensures Point(j) < maxRange {
      assert a[j] == Point(j);
    }
  }

  /** The list for a maximum is the only one of its kind. */
  lemma SweepUnique(a: seq<int>, b: seq<int>, maxRange: int)
    requires SweepOf(a, maxRange) && SweepOf(b, maxRange)
    ensures a == b
  {
    LastPoint(a, maxRange, |b| - 1);
    LastPoint(b, maxRange, |a| - 1);
  }
}
