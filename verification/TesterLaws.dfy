/** Laws of the memory tester's tree: how large it is, how it is numbered, and which caches its subsystems hang on. */
module TesterLaws {
  import opened Text
  import opened TesterTree
  import opened TesterWiring

  // ---------- size ----------

  lemma {:induction false} TreeSize(b: Build, s: Shape, parent: Option<nat>)
    requires s.Valid() && s.Level() < |b.next| && (s.caches == [] ==> parent.Some?)
    ensures Tree(b, s, parent).testers == b.testers + NumTesters(s.caches, s.testers)
    ensures |Tree(b, s, parent).caches| == |b.caches| + NumCaches(s.caches, s.testers)
    decreases s.Level(), 1, 0
  {
    if s.caches != [] {
      var name := Name(s.Level(), b.next[s.Level()]);
      FanSize(Trunk(Take(b, s.Level()), name, s, parent), s.Above(), name, |b.caches|, s.caches[0]);
    }
  }

  lemma {:induction false} FanSize(b: Build, s: Shape, name: Name, tree: nat, count: nat)
    requires s.Valid() && s.Level() < |b.next|
    ensures Fan(b, s, name, tree, count).testers == b.testers + Times(count, NumTesters(s.caches, s.testers))
    ensures |Fan(b, s, name, tree, count).caches| == |b.caches| + Times(count, NumCaches(s.caches, s.testers))
    decreases s.Level(), 2, count
  {
    if count > 0 {
      FanSize(b, s, name, tree, count - 1);
      TreeSize(ConnectMem(Fan(b, s, name, tree, count - 1), tree + count - 1, name), s, Some(tree + count - 1));
    }
  }

  // ---------- numbering ----------

  /** How many names of level `l` are taken by `count` subtrees of the given shape. */
  ghost function Taken(caches: seq<nat>, count: nat, l: nat): nat {
    if l <= |caches| then Times(count, Product(caches[..|caches| - l])) else 0
  }

  /** The index counters before and after those subtrees. */
  ghost predicate Numbered(from: seq<nat>, to: seq<nat>, caches: seq<nat>, count: nat) {
    && |caches| < |from| == |to|
    && forall l :: 0 <= l < |from| ==> to[l] == from[l] + Taken(caches, count, l)
  }

  /** One index for the root, then one set of indices per fanned-out subtree. */
  lemma TakenTree(from: seq<nat>, mid: seq<nat>, to: seq<nat>, caches: seq<nat>)
    requires 0 < |caches| < |from| && mid == from[|caches| := from[|caches|] + 1]
    requires Numbered(mid, to, caches[1..], caches[0])
    ensures Numbered(from, to, caches, 1)
  {
    var level := |caches|;
    forall l | 0 <= l < |from| ensures to[l] == from[l] + Taken(caches, 1, l) {
      if l < level {
        TimesIsProduct(caches[0], Product(caches[1..][..level - 1 - l]));
        assert caches[..level - l][1..] == caches[1..][..level - 1 - l];
        assert Times(1, Product(caches[..level - l])) == Product(caches[..level - l]);
      } else if l == level {
        assert caches[..0] == [];
        assert Times(1, 1) == 1;
      }
    }
  }

  lemma TakenNext(from: seq<nat>, mid: seq<nat>, to: seq<nat>, caches: seq<nat>, count: nat)
    requires Numbered(from, mid, caches, count) && Numbered(mid, to, caches, 1)
    ensures Numbered(from, to, caches, count + 1)
  {
    forall l | 0 <= l < |from| ensures to[l] == from[l] + Taken(caches, count + 1, l) {
      if l <= |caches| {
        assert Times(1, Product(caches[..|caches| - l])) == Product(caches[..|caches| - l]);
      }
    }
  }

  lemma {:induction false} TreeNumbers(b: Build, s: Shape, parent: Option<nat>)
    requires s.Valid() && s.Level() < |b.next| && (s.caches == [] ==> parent.Some?)
    ensures Numbered(b.next, Tree(b, s, parent).next, s.caches, 1)
    decreases s.Level(), 1, 0
  {
    if s.caches == [] {
      assert s.caches[..0] == [] && Times(1, Product([])) == 1;
    } else {
      var name := Name(s.Level(), b.next[s.Level()]);
      var trunk := Trunk(Take(b, s.Level()), name, s, parent);
      CrownNumbers(trunk, s.Above(), name, b.testers, s.testers[0], |b.caches|, s.caches[0]);
      TakenTree(b.next, trunk.next, Tree(b, s, parent).next, s.caches);
    }
  }

  lemma {:induction false} CrownNumbers(trunk: Build, s: Shape, name: Name, first: nat, n: nat, tree: nat, fan: nat)
    requires s.Valid() && s.Level() < |trunk.next|
    ensures Numbered(trunk.next, Crown(trunk, s, name, first, n, tree, fan).next, s.caches, fan)
    decreases s.Level(), 4, 0
  {
    FanNumbers(trunk, s, name, tree, fan);
  }

  lemma {:induction false} FanNumbers(b: Build, s: Shape, name: Name, tree: nat, count: nat)
    requires s.Valid() && s.Level() < |b.next|
    ensures Numbered(b.next, Fan(b, s, name, tree, count).next, s.caches, count)
    decreases s.Level(), 3, count
  {
    if count == 0 {
      assert forall l: nat :: Taken(s.caches, 0, l) == 0;
    } else {
      var r := Fan(b, s, name, tree, count - 1);
      FanNumbers(b, s, name, tree, count - 1);
      BranchNumbers(r, s, name, tree + count - 1);
      TakenNext(b.next, r.next, Fan(b, s, name, tree, count).next, s.caches, count - 1);
    }
  }

  lemma {:induction false} BranchNumbers(b: Build, s: Shape, name: Name, c: nat)
    requires s.Valid() && s.Level() < |b.next|
    ensures Numbered(b.next, Branch(b, s, name, c).next, s.caches, 1)
    decreases s.Level(), 2, 0
  {
    TreeNumbers(ConnectMem(b, c, name), s, Some(c));
  }

  /** Exactly the names below the next index of each level are in use, each once. */
  ghost predicate NamesOk(b: Build) {
    && (forall i, j :: 0 <= i < j < |b.names| ==> b.names[i] != b.names[j])
    && (forall n: Name :: n in b.names <==> n.level < |b.next| && n.index < b.next[n.level])
  }

  lemma NameTaken(b: Build, level: nat)
    requires NamesOk(b) && level < |b.next|
    ensures NamesOk(Take(b, level))
  {
    var n := Name(level, b.next[level]);
    var more := Take(b, level).next;
    assert n !in b.names;
    forall m: Name ensures m in b.names + [n] <==> m.level < |more| && m.index < more[m.level] {
      assert m in b.names + [n] <==> m in b.names || m == n;
    }
  }

  lemma {:induction false} TreeNames(b: Build, s: Shape, parent: Option<nat>)
    requires s.Valid() && s.Level() < |b.next| && (s.caches == [] ==> parent.Some?) && NamesOk(b)
    ensures NamesOk(Tree(b, s, parent))
    decreases s.Level(), 1, 0
  {
    NameTaken(b, s.Level());
    if s.caches != [] {
      var name := Name(s.Level(), b.next[s.Level()]);
      FanNames(Trunk(Take(b, s.Level()), name, s, parent), s.Above(), name, |b.caches|, s.caches[0]);
    }
  }

  lemma {:induction false} FanNames(b: Build, s: Shape, name: Name, tree: nat, count: nat)
    requires s.Valid() && s.Level() < |b.next| && NamesOk(b)
    ensures NamesOk(Fan(b, s, name, tree, count))
    decreases s.Level(), 2, count
  {
    if count > 0 {
      FanNames(b, s, name, tree, count - 1);
      TreeNames(ConnectMem(Fan(b, s, name, tree, count - 1), tree + count - 1, name), s, Some(tree + count - 1));
    }
  }

  // ---------- the cache in front of each subsystem ----------

  /** The cache that a crossbar leads to is built from the prototype of the next level. */
  ghost predicate Fitting(b: Build, protos: seq<Proto>) {
    forall n :: n in b.master ==>
      && n.level < |protos| && b.master[n] < |b.caches| && b.caches[b.master[n]] == protos[|protos| - 1 - n.level]
  }

  ghost predicate FitsBelow(b: Build, c: nat, level: nat, protos: seq<Proto>) {
    level < |protos| && c < |b.caches| && b.caches[c] == protos[|protos| - 1 - level]
  }

  ghost predicate FitBelow(b: Build, lo: nat, hi: nat, level: nat, protos: seq<Proto>) {
    forall c :: lo <= c < hi ==> FitsBelow(b, c, level, protos)
  }

  lemma TrunkFits(b: Build, s: Shape, name: Name, parent: Option<nat>, protos: seq<Proto>)
    requires s.Valid() && s.caches != [] && name.level == s.Level() <= |protos|
    requires s.protos == protos[|protos| - s.Level()..]
    requires Fitting(b, protos) && (parent.Some? ==> FitsBelow(b, parent.value, s.Level(), protos))
    ensures Fitting(Trunk(b, name, s, parent), protos)
    ensures FitBelow(Trunk(b, name, s, parent), |b.caches|, |b.caches| + s.caches[0], s.Level() - 1, protos)
  {
  }

  lemma {:induction false} TreeFits(b: Build, s: Shape, parent: Option<nat>, protos: seq<Proto>)
    requires s.Valid() && s.Level() < |b.next| && (s.caches == [] ==> parent.Some?)
    requires s.Level() <= |protos| && s.protos == protos[|protos| - s.Level()..]
    requires Fitting(b, protos) && (parent.Some? ==> FitsBelow(b, parent.value, s.Level(), protos))
    ensures Fitting(Tree(b, s, parent), protos)
    decreases s.Level(), 1, 0
  {
    if s.caches != [] {
      var name := Name(s.Level(), b.next[s.Level()]);
      TrunkFits(Take(b, s.Level()), s, name, parent, protos);
      var trunk := Trunk(Take(b, s.Level()), name, s, parent);
      CrownFits(trunk, s.Above(), name, b.testers, s.testers[0], |b.caches|, s.caches[0], protos);
    } else {
      TopFits(Take(b, 0), Name(0, b.next[0]), s.testers[0], parent.value, protos);
    }
  }

  lemma TopFits(b: Build, name: Name, n: nat, parent: nat, protos: seq<Proto>)
    requires Fitting(b, protos) && name.level == 0 && FitsBelow(b, parent, 0, protos)
    ensures Fitting(Top(b, name, n, parent), protos)
  {
  }

  lemma {:induction false} CrownFits(trunk: Build, s: Shape, name: Name, first: nat, n: nat, tree: nat, fan: nat,
                                     protos: seq<Proto>)
    requires s.Valid() && s.Level() < |trunk.next|
    requires s.Level() < |protos| && s.protos == protos[|protos| - s.Level()..]
    requires Fitting(trunk, protos) && FitBelow(trunk, tree, tree + fan, s.Level(), protos)
    ensures Fitting(Crown(trunk, s, name, first, n, tree, fan), protos)
    decreases s.Level(), 4, 0
  {
    FanFits(trunk, s, name, tree, fan, protos);
  }

  lemma {:induction false} FanFits(b: Build, s: Shape, name: Name, tree: nat, count: nat, protos: seq<Proto>)
    requires s.Valid() && s.Level() < |b.next|
    requires s.Level() < |protos| && s.protos == protos[|protos| - s.Level()..]
    requires Fitting(b, protos) && FitBelow(b, tree, tree + count, s.Level(), protos)
    ensures Fitting(Fan(b, s, name, tree, count), protos)
    decreases s.Level(), 3, count
  {
    if count > 0 {
      FanFits(b, s, name, tree, count - 1, protos);
      assert FitsBelow(b, tree + count - 1, s.Level(), protos);
      BranchFits(Fan(b, s, name, tree, count - 1), s, name, tree + count - 1, protos);
    }
  }

  lemma {:induction false} BranchFits(b: Build, s: Shape, name: Name, c: nat, protos: seq<Proto>)
    requires s.Valid() && s.Level() < |b.next|
    requires s.Level() < |protos| && s.protos == protos[|protos| - s.Level()..]
    requires Fitting(b, protos) && FitsBelow(b, c, s.Level(), protos)
    ensures Fitting(Branch(b, s, name, c), protos)
    decreases s.Level(), 2, 0
  {
    TreeFits(ConnectMem(b, c, name), s, Some(c), protos);
  }
}
