/**
 Every cache's CPU side has one user: whenever the memory tester's builder connects one, it is still free.
 */
module TesterSides {
  import opened Text
  import opened TesterWiring
  import opened TesterPorts

  /** The caches in the range have a free CPU side. */
  ghost predicate FreeCpu(b: Build, lo: nat, hi: nat) {
    forall c :: lo <= c < hi ==> c !in b.cpu
  }

  /** Only caches below `tree` have their CPU side taken. */
  ghost predicate TakenBelow(b: Build, tree: nat) {
    forall c :: c in b.cpu ==> c < tree
  }

  ghost predicate ParentFree(b: Build, parent: Option<nat>) {
    parent.Some? ==> parent.value < |b.caches| && parent.value !in b.cpu
  }

  // ---------- free when connected ----------

  /** Each of a subsystem's own caches is free when its tester is connected. */
  lemma OwnFree(b: Build, name: Name, first: nat, own: nat, k: nat)
    requires FreeCpu(b, own, own + k + 1)
    ensures own + k !in Own(b, name, first, own, k).cpu
  {
    OwnCpu(b, name, first, own, k);
  }

  /** Each tree cache is free when its subtree is built, and the builder may go on below it. */
  lemma FanFree(b: Build, s: Shape, name: Name, tree: nat, count: nat)
    requires s.Valid() && s.Level() < |b.next| && tree + count < |b.caches| && TakenBelow(b, tree)
    ensures var r := Fan(b, s, name, tree, count); TakenBelow(r, |r.caches|) && ParentFree(r, Some(tree + count))
  {
    FanCpu(b, s, name, tree, count);
  }

  lemma TrunkFree(b: Build, name: Name, s: Shape, parent: Option<nat>)
    requires s.Valid() && s.caches != [] && TakenBelow(b, |b.caches|) && ParentFree(b, parent)
    ensures TakenBelow(Trunk(b, name, s, parent), |b.caches|)
  {
  }

  lemma CrownFree(trunk: Build, s: Shape, name: Name, tree: nat, fan: nat)
    requires s.Valid() && s.Level() < |trunk.next| && tree + fan <= |trunk.caches| && TakenBelow(trunk, tree)
    ensures FreeCpu(Fan(trunk, s, name, tree, fan), tree + fan, |trunk.caches|)
  {
    FanCpu(trunk, s, name, tree, fan);
  }

  // ---------- one user ----------

  /**
   Whatever leads to a cache's CPU side has taken it, and no two crossbars, no two testers, and no crossbar and
   tester lead to the same one.
   */
  ghost predicate OneUserEach(b: Build) {
    && (forall n :: n in b.master ==> b.master[n] in b.cpu)
    && (forall t :: t in b.tester && b.tester[t].CpuSide? ==> b.tester[t].cache in b.cpu)
    && (forall m, n :: m in b.master && n in b.master && m != n ==> b.master[m] != b.master[n])
    && (forall t, u :: t in b.tester && u in b.tester && b.tester[t].CpuSide? && t != u ==> b.tester[t] != b.tester[u])
    && (forall n, t :: n in b.master && t in b.tester ==> b.tester[t] != CpuSide(b.master[n]))
  }

  lemma MasterOneUser(b: Build, name: Name, c: nat)
    requires OneUserEach(b) && c !in b.cpu
    ensures OneUserEach(ConnectMaster(b, name, c))
  {
  }

  lemma CpuOneUser(b: Build, t: nat, c: nat)
    requires OneUserEach(b) && c !in b.cpu
    ensures OneUserEach(ConnectCpu(b, t, c))
  {
  }

  lemma {:induction false} OwnOneUser(b: Build, name: Name, first: nat, own: nat, k: nat)
    requires OneUserEach(b) && FreeCpu(b, own, own + k)
    ensures OneUserEach(Own(b, name, first, own, k))
    decreases k
  {
    if k > 0 {
      OwnCacheOneUser(b, first, own, name);
      OwnOneUser(OwnCache(b, first, own, name), name, first + 1, own + 1, k - 1);
    }
  }

  lemma OwnCacheOneUser(b: Build, t: nat, c: nat, name: Name)
    requires OneUserEach(b) && c !in b.cpu
    ensures OneUserEach(OwnCache(b, t, c, name))
  {
    CpuOneUser(b, t, c);
  }

  lemma {:induction false} SharedOneUser(b: Build, name: Name, first: nat, k: nat)
    requires OneUserEach(b)
    ensures OneUserEach(Shared(b, name, first, k))
  {
    if k > 0 {
      SharedOneUser(b, name, first, k - 1);
    }
  }

  lemma TopOneUser(b: Build, name: Name, n: nat, parent: nat)
    requires OneUserEach(b) && parent !in b.cpu
    ensures OneUserEach(Top(b, name, n, parent))
  {
    if n > 1 {
      MasterOneUser(AddTesters(b, n), name, parent);
      SharedOneUser(ConnectMaster(AddTesters(b, n), name, parent), name, b.testers, n);
    } else {
      CpuOneUser(AddTesters(b, n), b.testers, parent);
    }
  }

  lemma TrunkOneUser(b: Build, name: Name, s: Shape, parent: Option<nat>)
    requires s.Valid() && s.caches != [] && OneUserEach(b) && ParentFree(b, parent)
    ensures OneUserEach(Trunk(b, name, s, parent))
  {
    if parent.Some? {
      MasterOneUser(AddTesters(b, s.testers[0]), name, parent.value);
    }
  }

  lemma {:induction false} TreeOneUser(b: Build, s: Shape, parent: Option<nat>)
    requires s.Valid() && s.Level() < |b.next| && (s.caches == [] ==> parent.Some?)
    requires OneUserEach(b) && TakenBelow(b, |b.caches|) && ParentFree(b, parent)
    ensures OneUserEach(Tree(b, s, parent))
    decreases s.Level(), 1, 0
  {
    var name := Name(s.Level(), b.next[s.Level()]);
    var b1 := Take(b, s.Level());
    if s.caches == [] {
      TopOneUser(b1, name, s.testers[0], parent.value);
    } else {
      TrunkOneUser(b1, name, s, parent);
      TrunkFree(b1, name, s, parent);
      CrownOneUser(Trunk(b1, name, s, parent), s.Above(), name, b.testers, s.testers[0], |b.caches|, s.caches[0]);
    }
  }

  lemma {:induction false} CrownOneUser(trunk: Build, s: Shape, name: Name, first: nat, n: nat, tree: nat, fan: nat)
    requires s.Valid() && s.Level() < |trunk.next| && tree + fan + n == |trunk.caches|
    requires OneUserEach(trunk) && TakenBelow(trunk, tree)
    ensures OneUserEach(Crown(trunk, s, name, first, n, tree, fan))
    decreases s.Level(), 4, 0
  {
    FanOneUser(trunk, s, name, tree, fan);
    CrownFree(trunk, s, name, tree, fan);
    OwnOneUser(Fan(trunk, s, name, tree, fan), name, first, tree + fan, n);
  }

  lemma {:induction false} FanOneUser(b: Build, s: Shape, name: Name, tree: nat, count: nat)
    requires s.Valid() && s.Level() < |b.next| && tree + count <= |b.caches| && OneUserEach(b) && TakenBelow(b, tree)
    ensures OneUserEach(Fan(b, s, name, tree, count))
    decreases s.Level(), 3, count
  {
    if count > 0 {
      FanOneUser(b, s, name, tree, count - 1);
      NextOneUser(b, s, name, tree, count - 1, Fan(b, s, name, tree, count - 1));
    }
  }

  lemma {:induction false} NextOneUser(b: Build, s: Shape, name: Name, tree: nat, count: nat, r: Build)
    requires s.Valid() && s.Level() < |b.next| && tree + count < |b.caches| && TakenBelow(b, tree)
    requires r == Fan(b, s, name, tree, count) && OneUserEach(r)
    ensures OneUserEach(Branch(r, s, name, tree + count))
    decreases s.Level(), 2, 1
  {
    FanFree(b, s, name, tree, count);
    BranchOneUser(r, s, name, tree + count);
  }

  lemma {:induction false} BranchOneUser(b: Build, s: Shape, name: Name, c: nat)
    requires s.Valid() && s.Level() < |b.next| && OneUserEach(b) && TakenBelow(b, |b.caches|) && ParentFree(b, Some(c))
    ensures OneUserEach(Branch(b, s, name, c))
    decreases s.Level(), 2, 0
  {
    TreeOneUser(ConnectMem(b, c, name), s, Some(c));
  }
}
