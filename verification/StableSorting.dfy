/**
 Python's `list.sort(key=...)` as a specification: the stable sort of a sequence by an integer key.
 The sort is written as repeated insertion and then characterised without mentioning insertion:
 it is the only sequence that is ordered by key and has, for every key, the same subsequence of
 elements with that key as the original.
 */
module StableSorting {

  predicate Sorted<T>(s: seq<T>, key: T -> int) {
    forall i, j :: 0 <= i < j < |s| ==> key(s[i]) <= key(s[j])
  }

  /** Puts `x` behind every element whose key does not exceed that of `x`. */
  function Insert<T>(s: seq<T>, x: T, key: T -> int): (r: seq<T>)
    ensures |r| == |s| + 1
  {
    if s == [] || key(s[|s| - 1]) <= key(x) then s + [x]
    else Insert(s[..|s| - 1], x, key) + [s[|s| - 1]]
  }

  function StableSort<T>(s: seq<T>, key: T -> int): (r: seq<T>)
    ensures |r| == |s|
  {
    if s == [] then [] else Insert(StableSort(s[..|s| - 1], key), s[|s| - 1], key)
  }

  /** The elements whose key is `k`, in order. */
  function WithKey<T>(s: seq<T>, k: int, key: T -> int): (r: seq<T>) {
    if s == [] then []
    else WithKey(s[..|s| - 1], k, key) + (if key(s[|s| - 1]) == k then [s[|s| - 1]] else [])
  }

  /** How many elements have a key above `v`. */
  function CountAbove<T>(s: seq<T>, v: int, key: T -> int): (n: nat)
    ensures n <= |s|
  {
    if s == [] then 0
    else CountAbove(s[..|s| - 1], v, key) + (if key(s[|s| - 1]) > v then 1 else 0)
  }

  function Filter<T>(s: seq<T>, p: T -> bool): (r: seq<T>)
    ensures |r| <= |s|
  {
    if s == [] then []
    else Filter(s[..|s| - 1], p) + (if p(s[|s| - 1]) then [s[|s| - 1]] else [])
  }

  // ---------- insertion ----------

  lemma {:induction false} InsertMembers<T(!new)>(s: seq<T>, x: T, key: T -> int)
    ensures forall y :: y in Insert(s, x, key) <==> y in s || y == x
  {
    if s == [] || key(s[|s| - 1]) <= key(x) {
    } else {
      InsertMembers(s[..|s| - 1], x, key);
      assert s == s[..|s| - 1] + [s[|s| - 1]];
    }
  }

  lemma {:induction false} InsertMultiset<T(!new)>(s: seq<T>, x: T, key: T -> int)
    ensures multiset(Insert(s, x, key)) == multiset(s) + multiset{x}
  {
    if s == [] || key(s[|s| - 1]) <= key(x) {
    } else {
      InsertMultiset(s[..|s| - 1], x, key);
      assert s == s[..|s| - 1] + [s[|s| - 1]];
    }
  }

  lemma SortedLast<T(!new)>(s: seq<T>, key: T -> int)
    requires Sorted(s, key) && s != []
    ensures forall y :: y in s ==> key(y) <= key(s[|s| - 1])
  {
    forall y | y in s
      ensures key(y) <= key(s[|s| - 1])
    {
      var i :| 0 <= i < |s| && s[i] == y;
    }
  }

  lemma {:induction false} InsertSorted<T(!new)>(s: seq<T>, x: T, key: T -> int)
    requires Sorted(s, key)
    ensures Sorted(Insert(s, x, key), key)
  {
    if s == [] || key(s[|s| - 1]) <= key(x) {
    } else {
      var init, last := s[..|s| - 1], s[|s| - 1];
      InsertSorted(init, x, key);
      InsertMembers(init, x, key);
      SortedLast(s, key);
      assert s == init + [last];
      var r := Insert(init, x, key);
      forall i | 0 <= i < |r|
        ensures key(r[i]) <= key(last)
      {
        var y := r[i];
        assert y in r;
        assert y == x || y in init;
      }
    }
  }

  lemma {:induction false} InsertWithKey<T(!new)>(s: seq<T>, x: T, k: int, key: T -> int)
    requires Sorted(s, key)
    ensures WithKey(Insert(s, x, key), k, key) == WithKey(s + [x], k, key)
  {
    if s == [] || key(s[|s| - 1]) <= key(x) {
    } else {
      var init, last := s[..|s| - 1], s[|s| - 1];
      InsertWithKey(init, x, k, key);
      assert (Insert(init, x, key) + [last])[..|s|] == Insert(init, x, key);
      assert (init + [x])[..|init|] == init;
      assert (s + [x])[..|s|] == s;
    }
  }

  lemma {:induction false} InsertCountAbove<T(!new)>(s: seq<T>, x: T, v: int, key: T -> int)
    ensures CountAbove(Insert(s, x, key), v, key) == CountAbove(s + [x], v, key)
  {
    if s == [] || key(s[|s| - 1]) <= key(x) {
    } else {
      var init, last := s[..|s| - 1], s[|s| - 1];
      InsertCountAbove(init, x, v, key);
      assert (Insert(init, x, key) + [last])[..|s|] == Insert(init, x, key);
      assert (init + [x])[..|init|] == init;
      assert (s + [x])[..|s|] == s;
    }
  }

  /** Insertion does not look into a prefix that lies below the new element. */
  lemma {:induction false} InsertBehind<T(!new)>(d: seq<T>, q: seq<T>, x: T, key: T -> int)
    requires forall y :: y in d ==> key(y) <= key(x)
    ensures Insert(d + q, x, key) == d + Insert(q, x, key)
  {
    if q == [] {
      assert d + q == d;
    } else if key(q[|q| - 1]) <= key(x) {
      assert d + q + [x] == d + (q + [x]);
    } else {
      var init, last := q[..|q| - 1], q[|q| - 1];
      InsertBehind(d, init, x, key);
      assert (d + q)[..|d + q| - 1] == d + init;
      assert (d + Insert(init, x, key)) + [last] == d + (Insert(init, x, key) + [last]);
    }
  }

  // ---------- the sort ----------

  lemma {:induction false} SortMembers<T(!new)>(s: seq<T>, key: T -> int)
    ensures forall y :: y in StableSort(s, key) <==> y in s
  {
    if s != [] {
      SortMembers(s[..|s| - 1], key);
      InsertMembers(StableSort(s[..|s| - 1], key), s[|s| - 1], key);
      assert s == s[..|s| - 1] + [s[|s| - 1]];
    }
  }

  lemma {:induction false} SortSorted<T(!new)>(s: seq<T>, key: T -> int)
    ensures Sorted(StableSort(s, key), key)
  {
    if s != [] {
      SortSorted(s[..|s| - 1], key);
      InsertSorted(StableSort(s[..|s| - 1], key), s[|s| - 1], key);
    }
  }

  lemma {:induction false} SortWithKey<T(!new)>(s: seq<T>, k: int, key: T -> int)
    ensures WithKey(StableSort(s, key), k, key) == WithKey(s, k, key)
  {
    if s != [] {
      var init, last := s[..|s| - 1], s[|s| - 1];
      SortWithKey(init, k, key);
      SortSorted(init, key);
      var r := StableSort(init, key);
      InsertWithKey(r, last, k, key);
      assert (r + [last])[..|r|] == r;
    }
  }

  lemma {:induction false} SortCountAbove<T(!new)>(s: seq<T>, v: int, key: T -> int)
    ensures CountAbove(StableSort(s, key), v, key) == CountAbove(s, v, key)
  {
    if s != [] {
      var init, last := s[..|s| - 1], s[|s| - 1];
      SortCountAbove(init, v, key);
      var r := StableSort(init, key);
      InsertCountAbove(r, last, v, key);
      assert (r + [last])[..|r|] == r;
    }
  }

  lemma {:induction false} SortMultiset<T(!new)>(s: seq<T>, key: T -> int)
    ensures multiset(StableSort(s, key)) == multiset(s)
  {
    if s != [] {
      SortMultiset(s[..|s| - 1], key);
      InsertMultiset(StableSort(s[..|s| - 1], key), s[|s| - 1], key);
      assert s == s[..|s| - 1] + [s[|s| - 1]];
    }
  }

  lemma {:induction false} SortFixesSorted<T(!new)>(s: seq<T>, key: T -> int)
    requires Sorted(s, key)
    ensures StableSort(s, key) == s
  {
    if s != [] {
      SortFixesSorted(s[..|s| - 1], key);
      assert s == s[..|s| - 1] + [s[|s| - 1]];
    }
  }

  lemma SortSnoc<T(!new)>(s: seq<T>, x: T, key: T -> int)
    ensures StableSort(s + [x], key) == Insert(StableSort(s, key), x, key)
  {
    assert (s + [x])[..|s|] == s;
  }

  // ---------- counting and filtering over concatenation ----------

  lemma {:induction false} CountAboveConcat<T(!new)>(a: seq<T>, b: seq<T>, v: int, key: T -> int)
    ensures CountAbove(a + b, v, key) == CountAbove(a, v, key) + CountAbove(b, v, key)
  {
    if b == [] {
      assert a + b == a;
    } else {
      CountAboveConcat(a, b[..|b| - 1], v, key);
      assert (a + b)[..|a + b| - 1] == a + b[..|b| - 1];
    }
  }

  lemma {:induction false} CountAboveAll<T(!new)>(s: seq<T>, v: int, key: T -> int)
    requires forall i :: 0 <= i < |s| ==> key(s[i]) > v
    ensures CountAbove(s, v, key) == |s|
  {
    if s != [] {
      CountAboveAll(s[..|s| - 1], v, key);
    }
  }

  lemma {:induction false} CountAboveWitness<T(!new)>(s: seq<T>, v: int, key: T -> int) returns (i: nat)
    requires CountAbove(s, v, key) > 0
    ensures i < |s| && key(s[i]) > v
  {
    if key(s[|s| - 1]) > v {
      i := |s| - 1;
    } else {
      i := CountAboveWitness(s[..|s| - 1], v, key);
    }
  }

  lemma {:induction false} FilterConcat<T(!new)>(a: seq<T>, b: seq<T>, p: T -> bool)
    ensures Filter(a + b, p) == Filter(a, p) + Filter(b, p)
  {
    if b == [] {
      assert a + b == a;
    } else {
      FilterConcat(a, b[..|b| - 1], p);
      assert (a + b)[..|a + b| - 1] == a + b[..|b| - 1];
    }
  }

  lemma FilterSnoc<T>(s: seq<T>, x: T, p: T -> bool)
    ensures Filter(s + [x], p) == if p(x) then Filter(s, p) + [x] else Filter(s, p)
  {
    assert (s + [x])[..|s|] == s;
  }

  lemma {:induction false} FilterNone<T(!new)>(s: seq<T>, p: T -> bool)
    requires forall i :: 0 <= i < |s| ==> !p(s[i])
    ensures Filter(s, p) == []
  {
    if s != [] {
      FilterNone(s[..|s| - 1], p);
    }
  }

  lemma {:induction false} FilterMembers<T(!new)>(s: seq<T>, p: T -> bool)
    ensures forall y :: y in Filter(s, p) <==> y in s && p(y)
  {
    if s != [] {
      FilterMembers(s[..|s| - 1], p);
      assert s == s[..|s| - 1] + [s[|s| - 1]];
    }
  }

  lemma {:induction false} FilterMultiset<T(!new)>(s: seq<T>, p: T -> bool)
    ensures multiset(Filter(s, p)) <= multiset(s)
  {
    if s != [] {
      FilterMultiset(s[..|s| - 1], p);
      assert s == s[..|s| - 1] + [s[|s| - 1]];
    }
  }

  lemma {:induction false} FilterSorted<T(!new)>(s: seq<T>, p: T -> bool, key: T -> int)
    requires Sorted(s, key)
    ensures Sorted(Filter(s, p), key)
  {
    if s != [] {
      FilterSorted(s[..|s| - 1], p, key);
      FilterMembers(s[..|s| - 1], p);
      SortedLast(s, key);
      assert s == s[..|s| - 1] + [s[|s| - 1]];
      var r := Filter(s[..|s| - 1], p);
      forall i | 0 <= i < |r|
        ensures key(r[i]) <= key(s[|s| - 1])
      {
        var y := r[i];
        assert y in r;
        assert y in s[..|s| - 1];
      }
    }
  }

  lemma {:induction false} WithKeyFilter<T(!new)>(s: seq<T>, k: int, p: T -> bool, key: T -> int)
    ensures WithKey(Filter(s, p), k, key) == Filter(WithKey(s, k, key), p)
  {
    if s != [] {
      var init, last := s[..|s| - 1], s[|s| - 1];
      WithKeyFilter(init, k, p, key);
      var f, w := Filter(init, p), WithKey(init, k, key);
      assert (f + [last])[..|f|] == f && (w + [last])[..|w|] == w;
      assert f + [] == f && w + [] == w;
      assert WithKey(f + [last], k, key) == WithKey(f, k, key) + (if key(last) == k then [last] else []);
      assert Filter(w + [last], p) == Filter(w, p) + (if p(last) then [last] else []);
    }
  }

  // ---------- characterisation ----------

  ghost predicate SameByKey<T(!new)>(a: seq<T>, b: seq<T>, key: T -> int) {
    forall k: int :: WithKey(a, k, key) == WithKey(b, k, key)
  }

  lemma {:induction false} WithKeyMembers<T(!new)>(s: seq<T>, k: int, key: T -> int)
    ensures forall y :: y in WithKey(s, k, key) <==> y in s && key(y) == k
  {
    if s != [] {
      WithKeyMembers(s[..|s| - 1], k, key);
      assert s == s[..|s| - 1] + [s[|s| - 1]];
    }
  }

  lemma LastKeyBound<T(!new)>(a: seq<T>, b: seq<T>, key: T -> int)
    requires Sorted(b, key) && SameByKey(a, b, key) && a != []
    ensures b != [] && key(a[|a| - 1]) <= key(b[|b| - 1])
  {
    var last := a[|a| - 1];
    WithKeyMembers(a, key(last), key);
    WithKeyMembers(b, key(last), key);
    assert last in WithKey(a, key(last), key);
    assert last in WithKey(b, key(last), key);
    var i :| 0 <= i < |b| && b[i] == last;
  }

  /** Being ordered and agreeing key by key leaves no freedom at all. */
  lemma {:induction false} SortedUnique<T(!new)>(a: seq<T>, b: seq<T>, key: T -> int)
    requires Sorted(a, key) && Sorted(b, key) && SameByKey(a, b, key)
    ensures a == b
    decreases |a|
  {
    if a == [] {
      if b != [] {
        LastKeyBound(b, a, key);
      }
    } else {
      LastKeyBound(a, b, key);
      LastKeyBound(b, a, key);
      var m := key(a[|a| - 1]);
      var a', b' := a[..|a| - 1], b[..|b| - 1];
      assert WithKey(a, m, key) == WithKey(b, m, key);
      assert a[|a| - 1] == WithKey(a, m, key)[|WithKey(a, m, key)| - 1];
      assert b[|b| - 1] == WithKey(b, m, key)[|WithKey(b, m, key)| - 1];
      forall k: int
        ensures WithKey(a', k, key) == WithKey(b', k, key)
      {
        assert WithKey(a, k, key) == WithKey(b, k, key);
        if k == m {
          assert WithKey(a', k, key) == WithKey(a, k, key)[..|WithKey(a, k, key)| - 1];
          assert WithKey(b', k, key) == WithKey(b, k, key)[..|WithKey(b, k, key)| - 1];
        } else {
          assert WithKey(a', k, key) == WithKey(a', k, key) + [] == WithKey(a, k, key);
          assert WithKey(b', k, key) == WithKey(b', k, key) + [] == WithKey(b, k, key);
        }
      }
      SortedUnique(a', b', key);
      assert a == a' + [a[|a| - 1]];
      assert b == b' + [b[|b| - 1]];
    }
  }

  /** `StableSort` is the one ordered sequence that keeps equal keys in their original order. */
  lemma StableSortCharacterised<T(!new)>(s: seq<T>, r: seq<T>, key: T -> int)
    ensures r == StableSort(s, key) <==> Sorted(r, key) && SameByKey(r, s, key)
  {
    SortSorted(s, key);
    forall k: int
      ensures WithKey(StableSort(s, key), k, key) == WithKey(s, k, key)
    {
      SortWithKey(s, k, key);
    }
    if Sorted(r, key) && SameByKey(r, s, key) {
      SortedUnique(r, StableSort(s, key), key);
    }
  }

  /** Filtering before or after the sort is the same. */
  lemma FilterSortCommute<T(!new)>(s: seq<T>, p: T -> bool, key: T -> int)
    ensures Filter(StableSort(s, key), p) == StableSort(Filter(s, p), key)
  {
    var r := StableSort(s, key);
    SortSorted(s, key);
    FilterSorted(r, p, key);
    forall k: int
      ensures WithKey(Filter(r, p), k, key) == WithKey(Filter(s, p), k, key)
    {
      WithKeyFilter(r, k, p, key);
      WithKeyFilter(s, k, p, key);
      SortWithKey(s, k, key);
    }
    StableSortCharacterised(Filter(s, p), Filter(r, p), key);
  }

  lemma DropLast<T>(a: seq<T>)
    requires a != []
    ensures multiset(a[..|a| - 1]) == multiset(a) - multiset{a[|a| - 1]}
  {
    assert a == a[..|a| - 1] + [a[|a| - 1]];
  }

  lemma SameSize<T>(a: seq<T>, b: seq<T>)
    requires multiset(a) == multiset(b)
    ensures |a| == |b|
  {
    assert |a| == |multiset(a)| == |multiset(b)| == |b|;
  }

  ghost predicate StrictlySorted<T>(s: seq<T>, key: T -> int) {
    forall i, j :: 0 <= i < j < |s| ==> key(s[i]) < key(s[j])
  }

  lemma SameLast<T(!new)>(a: seq<T>, b: seq<T>, key: T -> int)
    requires StrictlySorted(a, key) && Sorted(b, key) && multiset(a) == multiset(b) && a != [] && b != []
    ensures a[|a| - 1] == b[|b| - 1]
  {
    var x, y := a[|a| - 1], b[|b| - 1];
    assert y in multiset(b) && y in multiset(a);
    var i :| 0 <= i < |a| && a[i] == y;
    assert x in multiset(a) && x in multiset(b);
    SortedLast(b, key);
    assert key(x) <= key(y);
  }

  lemma InitsSorted<T>(a: seq<T>, b: seq<T>, key: T -> int)
    requires StrictlySorted(a, key) && Sorted(b, key) && a != [] && b != []
    ensures StrictlySorted(a[..|a| - 1], key) && Sorted(b[..|b| - 1], key)
  {
  }

  lemma SameInits<T>(a: seq<T>, b: seq<T>)
    requires a != [] && b != [] && a[|a| - 1] == b[|b| - 1] && multiset(a) == multiset(b)
    ensures multiset(a[..|a| - 1]) == multiset(b[..|b| - 1])
    ensures a[..|a| - 1] == b[..|b| - 1] ==> a == b
  {
    DropLast(a);
    DropLast(b);
    assert a == a[..|a| - 1] + [a[|a| - 1]] && b == b[..|b| - 1] + [b[|b| - 1]];
  }

  /** With keys all different there is only one way to sort: any rearrangement sorts to the same. */
  lemma {:induction false} StrictlySortedUnique<T(!new)>(a: seq<T>, b: seq<T>, key: T -> int)
    requires StrictlySorted(a, key) && Sorted(b, key) && multiset(a) == multiset(b)
    ensures a == b
    decreases |a|
  {
    SameSize(a, b);
    if a != [] {
      SameLast(a, b, key);
      InitsSorted(a, b, key);
      SameInits(a, b);
      StrictlySortedUnique(a[..|a| - 1], b[..|b| - 1], key);
    }
  }
}
