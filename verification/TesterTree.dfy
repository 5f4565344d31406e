/**
 The sizes of the memory tester's tree: the number of testers computed level by level, against the number
 that a recursive walk of the tree creates.
 */
module TesterTree {
  // ---------- how many ----------

  function Product(s: seq<nat>): nat { if s == [] then 1 else s[0] * Product(s[1..]) }

  /** Multiplication as the loop over the tree caches builds it up. */
  function Times(j: nat, n: nat): nat { if j == 0 then 0 else Times(j - 1, n) + n }

  /** The testers of a subtree: its own, and those of each of the subtrees it fans out to. */
  function NumTesters(caches: seq<nat>, testers: seq<nat>): nat
    requires |testers| == |caches| + 1
  {
    testers[0] + if caches == [] then 0 else Times(caches[0], NumTesters(caches[1..], testers[1..]))
  }

  /** The caches of a subtree: one per tester except at the top, and one per subtree it fans out to. */
  function NumCaches(caches: seq<nat>, testers: seq<nat>): nat
    requires |testers| == |caches| + 1
  {
    if caches == [] then 0 else testers[0] + caches[0] + Times(caches[0], NumCaches(caches[1..], testers[1..]))
  }

  lemma {:induction false} TimesIsProduct(j: nat, n: nat)
    ensures Times(j, n) == j * n
  {
    if j > 0 {
      TimesIsProduct(j - 1, n);
      assert (j - 1) * n + n == j * n;
    }
  }

  lemma {:induction false} ProductSnoc(s: seq<nat>, x: nat)
    ensures Product(s + [x]) == Product(s) * x
  {
    if s == [] {
      assert s + [x] == [x] && [x][1..] == [];
    } else {
      ProductSnoc(s[1..], x);
      assert (s + [x])[1..] == s[1..] + [x];
      assert s[0] * (Product(s[1..]) * x) == s[0] * Product(s[1..]) * x;
    }
  }

  /** The sum over the levels of testers times the number of subsystems at the level. */
  function Weighted(caches: seq<nat>, testers: seq<nat>, k: nat): nat
    requires |testers| == |caches| + 1 && k <= |testers|
  {
    if k == 0 then 0 else Weighted(caches, testers, k - 1) + testers[k - 1] * Product(caches[..k - 1])
  }

  lemma Distribute(c: int, w: int, t: int, p: int)
    ensures c * (w + t * p) == c * w + t * (c * p)
  {
    assert t * (c * p) == c * (t * p);
  }

  lemma {:induction false} WeightedShift(caches: seq<nat>, testers: seq<nat>, k: nat)
    requires |testers| == |caches| + 1 && caches != [] && 1 <= k <= |testers|
    ensures Weighted(caches, testers, k) == testers[0] + caches[0] * Weighted(caches[1..], testers[1..], k - 1)
  {
    if k == 1 {
      assert caches[..0] == [];
      assert Weighted(caches, testers, 0) == 0;
    } else {
      WeightedShift(caches, testers, k - 1);
      var w, t, p := Weighted(caches[1..], testers[1..], k - 2), testers[k - 1], Product(caches[1..][..k - 2]);
      assert caches[..k - 1][1..] == caches[1..][..k - 2];
      assert Weighted(caches, testers, k) == Weighted(caches, testers, k - 1) + t * (caches[0] * p);
      assert Weighted(caches[1..], testers[1..], k - 1) == w + t * p;
      Distribute(caches[0], w, t, p);
    }
  }

  /** The closed form that the script computes is what the recursion creates. */
  lemma {:induction false} ClosedForm(caches: seq<nat>, testers: seq<nat>)
    requires |testers| == |caches| + 1
    ensures Weighted(caches, testers, |testers|) == NumTesters(caches, testers)
  {
    if caches == [] {
      assert caches[..0] == [];
      assert Weighted(caches, testers, 1) == Weighted(caches, testers, 0) + testers[0] * 1;
    } else {
      ClosedForm(caches[1..], testers[1..]);
      TimesIsProduct(caches[0], NumTesters(caches[1..], testers[1..]));
      WeightedShift(caches, testers, |testers|);
    }
  }

  method Numtesters(caches: seq<nat>, testers: seq<nat>) returns (total: nat)
    requires |testers| == |caches| + 1
    ensures total == NumTesters(caches, testers)
  {
    var multiplier: seq<nat> := [1];
    for k := 0 to |caches|
      invariant |multiplier| == k + 1 && forall j :: 0 <= j <= k ==> multiplier[j] == Product(caches[..j])
    {
      ProductSnoc(caches[..k], caches[k]);
      assert caches[..k + 1] == caches[..k] + [caches[k]];
      multiplier := multiplier + [multiplier[k] * caches[k]];
    }
    total := 0;
    for k := 0 to |testers|
      invariant total == Weighted(caches, testers, k)
    {
      total := total + testers[k] * multiplier[k];
    }
    ClosedForm(caches, testers);
  }
}
