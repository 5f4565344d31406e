/**
 The caches of the memory tester's tree that are not behind a crossbar: every tester that is connected to a
 cache directly sits behind an L1 cache.
 */
module TesterCaches {
  import opened Text
  import opened TesterWiring

  ghost predicate IsL1(b: Build, c: nat, l1: Proto) { c < |b.caches| && b.caches[c] == l1 }

  ghost predicate AllL1(b: Build, lo: nat, hi: nat, l1: Proto) {
    forall c :: lo <= c < hi ==> IsL1(b, c, l1)
  }

  /** Every tester whose port leads to a cache leads to an L1 cache. */
  ghost predicate BehindL1(b: Build, l1: Proto) {
    forall t :: t in b.tester && b.tester[t].CpuSide? ==> IsL1(b, b.tester[t].cache, l1)
  }

  /** The prototype of the top level, if there is one, is the L1 prototype. */
  ghost predicate TopIsL1(s: Shape) {
    s.Valid() && (s.protos != [] ==> s.protos[|s.protos| - 1] == s.l1)
  }

  /** A cache in front of a top subsystem is an L1 cache. */
  ghost predicate FrontOk(b: Build, s: Shape, c: nat) { s.caches == [] ==> IsL1(b, c, s.l1) }

  lemma {:induction false} OwnL1(b: Build, name: Name, first: nat, own: nat, k: nat, l1: Proto)
    requires BehindL1(b, l1) && AllL1(b, own, own + k, l1)
    ensures BehindL1(Own(b, name, first, own, k), l1)
    decreases k
  {
    if k > 0 {
      var r := OwnCache(b, first, own, name);
      assert IsL1(b, own, l1);
      assert BehindL1(r, l1) && AllL1(r, own + 1, own + k, l1) by {
        forall c | own + 1 <= c < own + k ensures IsL1(r, c, l1) {
          assert IsL1(b, c, l1);
        }
      }
      OwnL1(r, name, first + 1, own + 1, k - 1, l1);
    }
  }

  lemma {:induction false} SharedL1(b: Build, name: Name, first: nat, k: nat, l1: Proto)
    requires BehindL1(b, l1)
    ensures BehindL1(Shared(b, name, first, k), l1)
  {
    if k > 0 {
      SharedL1(b, name, first, k - 1, l1);
    }
  }

  lemma TopL1(b: Build, name: Name, n: nat, parent: nat, l1: Proto)
    requires BehindL1(b, l1) && IsL1(b, parent, l1)
    ensures BehindL1(Top(b, name, n, parent), l1)
  {
    if n > 1 {
      SharedL1(ConnectMaster(AddTesters(b, n), name, parent), name, b.testers, n, l1);
    }
  }

  lemma TrunkL1(b: Build, name: Name, s: Shape, parent: Option<nat>)
    requires s.caches != [] && TopIsL1(s) && BehindL1(b, s.l1)
    ensures var r := Trunk(b, name, s, parent);
            var tree, own := |b.caches|, |b.caches| + s.caches[0];
            && BehindL1(r, s.l1) && AllL1(r, own, own + s.testers[0], s.l1)
            && (s.Level() == 1 ==> AllL1(r, tree, own, s.l1))
  {
    var hung := if parent.Some? then ConnectMaster(AddTesters(b, s.testers[0]), name, parent.value)
                else AddTesters(b, s.testers[0]);
    assert hung.caches == b.caches;
  }

  lemma {:induction false} TreeL1(b: Build, s: Shape, parent: Option<nat>)
    requires TopIsL1(s) && s.Level() < |b.next| && (s.caches == [] ==> parent.Some?)
    requires BehindL1(b, s.l1) && (parent.Some? ==> FrontOk(b, s, parent.value))
    ensures BehindL1(Tree(b, s, parent), s.l1)
    decreases s.Level(), 1, 0
  {
    var name := Name(s.Level(), b.next[s.Level()]);
    if s.caches == [] {
      TopL1(Take(b, 0), name, s.testers[0], parent.value, s.l1);
    } else {
      TrunkL1(Take(b, s.Level()), name, s, parent);
      var trunk := Trunk(Take(b, s.Level()), name, s, parent);
      CrownL1(trunk, s.Above(), name, b.testers, s.testers[0], |b.caches|, s.caches[0]);
    }
  }

  lemma {:induction false} CrownL1(trunk: Build, s: Shape, name: Name, first: nat, n: nat, tree: nat, fan: nat)
    requires TopIsL1(s) && s.Level() < |trunk.next| && BehindL1(trunk, s.l1)
    requires AllL1(trunk, tree + fan, tree + fan + n, s.l1) && (s.Level() == 0 ==> AllL1(trunk, tree, tree + fan, s.l1))
    ensures BehindL1(Crown(trunk, s, name, first, n, tree, fan), s.l1)
    decreases s.Level(), 4, 0
  {
    FanL1(trunk, s, name, tree, fan);
    AllL1Stays(trunk, Fan(trunk, s, name, tree, fan), tree + fan, tree + fan + n, s.l1);
    OwnL1(Fan(trunk, s, name, tree, fan), name, first, tree + fan, n, s.l1);
  }

  lemma AllL1Stays(b: Build, r: Build, lo: nat, hi: nat, l1: Proto)
    requires b.caches <= r.caches && AllL1(b, lo, hi, l1)
    ensures AllL1(r, lo, hi, l1)
  {
    forall c | lo <= c < hi ensures IsL1(r, c, l1) {
      assert IsL1(b, c, l1);
    }
  }

  lemma {:induction false} FanL1(b: Build, s: Shape, name: Name, tree: nat, count: nat)
    requires TopIsL1(s) && s.Level() < |b.next| && BehindL1(b, s.l1)
    requires s.Level() == 0 ==> AllL1(b, tree, tree + count, s.l1)
    ensures BehindL1(Fan(b, s, name, tree, count), s.l1)
    decreases s.Level(), 3, count
  {
    if count > 0 {
      FanL1(b, s, name, tree, count - 1);
      assert s.Level() == 0 ==> IsL1(b, tree + count - 1, s.l1);
      BranchL1(Fan(b, s, name, tree, count - 1), s, name, tree + count - 1);
    }
  }

  lemma {:induction false} BranchL1(b: Build, s: Shape, name: Name, c: nat)
    requires TopIsL1(s) && s.Level() < |b.next| && BehindL1(b, s.l1) && FrontOk(b, s, c)
    ensures BehindL1(Branch(b, s, name, c), s.l1)
    decreases s.Level(), 2, 0
  {
    TreeL1(ConnectMem(b, c, name), s, Some(c));
  }
}
