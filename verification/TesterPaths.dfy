/** No connection of the memory tester's tree is ever replaced, and every tester has a way to memory. */
module TesterPaths {
  import opened Text
  import opened TesterWiring
  import opened TesterPorts

  // ---------- connections stay ----------

  ghost predicate KeptTesters(from: Build, to: Build) {
    forall t :: t in from.tester ==> t in to.tester && to.tester[t] == from.tester[t]
  }

  ghost predicate KeptMem(from: Build, to: Build) {
    forall c :: c in from.mem ==> c in to.mem && to.mem[c] == from.mem[c]
  }

  ghost predicate KeptMaster(from: Build, to: Build) {
    forall n :: n in from.master ==> n in to.master && to.master[n] == from.master[n]
  }

  lemma {:induction false} SharedKeeps(b: Build, name: Name, first: nat, k: nat)
    requires forall t :: first <= t < first + k ==> t !in b.tester
    ensures KeptTesters(b, Shared(b, name, first, k))
  {
    if k > 0 {
      SharedKeeps(b, name, first, k - 1);
    }
  }

  lemma {:induction false} TreeKeepsTesters(b: Build, s: Shape, parent: Option<nat>)
    requires s.Valid() && s.Level() < |b.next| && (s.caches == [] ==> parent.Some?)
    requires forall t :: t in b.tester ==> t < b.testers
    ensures KeptTesters(b, Tree(b, s, parent))
    decreases s.Level(), 1, 0
  {
    var name := Name(s.Level(), b.next[s.Level()]);
    if s.caches != [] {
      var trunk := Trunk(Take(b, s.Level()), name, s, parent);
      CrownKeepsTesters(trunk, s.Above(), name, b.testers, s.testers[0], |b.caches|, s.caches[0]);
    } else {
      TopKeepsTesters(Take(b, 0), name, s.testers[0], parent.value);
    }
  }

  lemma TopKeepsTesters(b: Build, name: Name, n: nat, parent: nat)
    requires forall t :: t in b.tester ==> t < b.testers
    ensures KeptTesters(b, Top(b, name, n, parent))
  {
    if n > 1 {
      SharedKeeps(ConnectMaster(AddTesters(b, n), name, parent), name, b.testers, n);
    }
  }

  lemma {:induction false} CrownKeepsTesters(trunk: Build, s: Shape, name: Name, first: nat, n: nat,
                                             tree: nat, fan: nat)
    requires s.Valid() && s.Level() < |trunk.next| && first + n == trunk.testers
    requires forall t :: t in trunk.tester ==> t < first
    ensures KeptTesters(trunk, Crown(trunk, s, name, first, n, tree, fan))
    decreases s.Level(), 4, 0
  {
    FanKeepsTesters(trunk, s, name, tree, fan);
    FanTesters(trunk, s, name, tree, fan);
    OwnKeepsTesters(Fan(trunk, s, name, tree, fan), name, first, tree + fan, n);
  }

  lemma {:induction false} OwnKeepsTesters(b: Build, name: Name, first: nat, own: nat, k: nat)
    requires forall t :: first <= t < first + k ==> t !in b.tester
    ensures KeptTesters(b, Own(b, name, first, own, k))
    decreases k
  {
    if k > 0 {
      OwnKeepsTesters(OwnCache(b, first, own, name), name, first + 1, own + 1, k - 1);
    }
  }

  lemma {:induction false} FanKeepsTesters(b: Build, s: Shape, name: Name, tree: nat, count: nat)
    requires s.Valid() && s.Level() < |b.next| && forall t :: t in b.tester ==> t < b.testers
    ensures KeptTesters(b, Fan(b, s, name, tree, count))
    decreases s.Level(), 3, count
  {
    if count > 0 {
      FanKeepsTesters(b, s, name, tree, count - 1);
      FanTesters(b, s, name, tree, count - 1);
      BranchKeepsTesters(Fan(b, s, name, tree, count - 1), s, name, tree + count - 1);
    }
  }

  lemma {:induction false} BranchKeepsTesters(b: Build, s: Shape, name: Name, c: nat)
    requires s.Valid() && s.Level() < |b.next| && forall t :: t in b.tester ==> t < b.testers
    ensures KeptTesters(b, Branch(b, s, name, c))
    decreases s.Level(), 2, 0
  {
    TreeKeepsTesters(ConnectMem(b, c, name), s, Some(c));
  }

  lemma {:induction false} OwnKeepsMem(b: Build, name: Name, first: nat, own: nat, k: nat)
    requires forall c :: own <= c < own + k ==> c !in b.mem
    ensures KeptMem(b, Own(b, name, first, own, k))
    decreases k
  {
    if k > 0 {
      OwnKeepsMem(OwnCache(b, first, own, name), name, first + 1, own + 1, k - 1);
    }
  }

  lemma {:induction false} TreeKeepsMem(b: Build, s: Shape, parent: Option<nat>)
    requires s.Valid() && s.Level() < |b.next| && (s.caches == [] ==> parent.Some?)
    requires forall c :: c in b.mem ==> c < |b.caches|
    ensures KeptMem(b, Tree(b, s, parent))
    decreases s.Level(), 1, 0
  {
    if s.caches != [] {
      var name := Name(s.Level(), b.next[s.Level()]);
      var trunk := Trunk(Take(b, s.Level()), name, s, parent);
      CrownKeepsMem(trunk, s.Above(), name, b.testers, s.testers[0], |b.caches|, s.caches[0]);
    }
  }

  lemma {:induction false} CrownKeepsMem(trunk: Build, s: Shape, name: Name, first: nat, n: nat, tree: nat, fan: nat)
    requires s.Valid() && s.Level() < |trunk.next| && tree + fan + n == |trunk.caches|
    requires forall c :: c in trunk.mem ==> c < tree
    ensures KeptMem(trunk, Crown(trunk, s, name, first, n, tree, fan))
    decreases s.Level(), 4, 0
  {
    FanKeepsMem(trunk, s, name, tree, fan);
    FanMem(trunk, s, name, tree, fan);
    OwnKeepsMem(Fan(trunk, s, name, tree, fan), name, first, tree + fan, n);
  }

  lemma {:induction false} FanKeepsMem(b: Build, s: Shape, name: Name, tree: nat, count: nat)
    requires s.Valid() && s.Level() < |b.next| && tree + count <= |b.caches|
    requires forall c :: c in b.mem ==> c < tree
    ensures KeptMem(b, Fan(b, s, name, tree, count))
    decreases s.Level(), 3, count
  {
    if count > 0 {
      FanKeepsMem(b, s, name, tree, count - 1);
      FanMem(b, s, name, tree, count - 1);
      BranchKeepsMem(Fan(b, s, name, tree, count - 1), s, name, tree + count - 1);
    }
  }

  lemma {:induction false} BranchKeepsMem(b: Build, s: Shape, name: Name, c: nat)
    requires s.Valid() && s.Level() < |b.next| && c !in b.mem && c < |b.caches|
    requires forall d :: d in b.mem ==> d < |b.caches|
    ensures KeptMem(b, Branch(b, s, name, c))
    decreases s.Level(), 2, 0
  {
    TreeKeepsMem(ConnectMem(b, c, name), s, Some(c));
  }

  ghost predicate Named(b: Build) {
    forall n :: n in b.master ==> n.level < |b.next| && n.index < b.next[n.level]
  }

  lemma {:induction false} TreeKeepsMaster(b: Build, s: Shape, parent: Option<nat>)
    requires s.Valid() && s.Level() < |b.next| && (s.caches == [] ==> parent.Some?) && Named(b)
    ensures KeptMaster(b, Tree(b, s, parent)) && Named(Tree(b, s, parent))
    decreases s.Level(), 1, 0
  {
    var name := Name(s.Level(), b.next[s.Level()]);
    if s.caches == [] {
      TopKeepsMaster(b, name, s.testers[0], parent.value);
    } else {
      TrunkKeepsMaster(b, s, parent, name);
      FanKeepsMaster(Trunk(Take(b, s.Level()), name, s, parent), s.Above(), name, |b.caches|, s.caches[0]);
    }
  }

  lemma TopKeepsMaster(b: Build, name: Name, n: nat, parent: nat)
    requires 0 < |b.next| && name == Name(0, b.next[0]) && Named(b)
    ensures KeptMaster(b, Top(Take(b, 0), name, n, parent)) && Named(Top(Take(b, 0), name, n, parent))
  {
  }

  lemma TrunkKeepsMaster(b: Build, s: Shape, parent: Option<nat>, name: Name)
    requires s.Valid() && s.Level() < |b.next| && s.caches != [] && name == Name(s.Level(), b.next[s.Level()])
    requires Named(b)
    ensures var r := Trunk(Take(b, s.Level()), name, s, parent); KeptMaster(b, r) && Named(r)
  {
  }

  lemma {:induction false} FanKeepsMaster(b: Build, s: Shape, name: Name, tree: nat, count: nat)
    requires s.Valid() && s.Level() < |b.next| && Named(b)
    ensures KeptMaster(b, Fan(b, s, name, tree, count)) && Named(Fan(b, s, name, tree, count))
    decreases s.Level(), 2, count
  {
    if count > 0 {
      FanKeepsMaster(b, s, name, tree, count - 1);
      TreeKeepsMaster(ConnectMem(Fan(b, s, name, tree, count - 1), tree + count - 1, name), s, Some(tree + count - 1));
    }
  }

  // ---------- the way to memory ----------

  /** A crossbar that is the root, or that leads to a cache in front of the next level. */
  ghost predicate XbarReaches(b: Build, n: Name, top: nat)
    decreases top - n.level, 0
  {
    n.level == top || (n.level < top && n in b.master && CacheReaches(b, b.master[n], n.level + 1, top))
  }

  /** A cache that leads to a crossbar of the given level which leads on to the root. */
  ghost predicate CacheReaches(b: Build, c: nat, level: nat, top: nat)
    decreases top - level, 1
  {
    c in b.mem && b.mem[c].level == level && XbarReaches(b, b.mem[c], top)
  }

  ghost predicate TesterReaches(b: Build, t: nat, top: nat) {
    && t in b.tester
    && match b.tester[t]
       case Slave(n) => XbarReaches(b, n, top)
       case CpuSide(c) => c in b.mem && XbarReaches(b, b.mem[c], top)
  }

  /** All testers numbered from `lo` up to `hi` have a way to memory. */
  ghost predicate Reached(b: Build, lo: nat, hi: nat, top: nat) {
    forall t :: lo <= t < hi ==> TesterReaches(b, t, top)
  }

  lemma {:induction false} XbarStillReaches(b: Build, more: Build, n: Name, top: nat)
    requires KeptMem(b, more) && KeptMaster(b, more) && XbarReaches(b, n, top)
    ensures XbarReaches(more, n, top)
    decreases top - n.level, 0
  {
    if n.level != top {
      CacheStillReaches(b, more, b.master[n], n.level + 1, top);
    }
  }

  lemma {:induction false} CacheStillReaches(b: Build, more: Build, c: nat, level: nat, top: nat)
    requires KeptMem(b, more) && KeptMaster(b, more) && CacheReaches(b, c, level, top)
    ensures CacheReaches(more, c, level, top)
    decreases top - level, 1
  {
    XbarStillReaches(b, more, b.mem[c], top);
  }

  lemma StillReached(b: Build, more: Build, lo: nat, hi: nat, top: nat)
    requires KeptTesters(b, more) && KeptMem(b, more) && KeptMaster(b, more) && Reached(b, lo, hi, top)
    ensures Reached(more, lo, hi, top)
  {
    forall t | lo <= t < hi ensures TesterReaches(more, t, top) {
      assert TesterReaches(b, t, top);
      match b.tester[t] {
        case Slave(n) => XbarStillReaches(b, more, n, top);
        case CpuSide(c) => XbarStillReaches(b, more, b.mem[c], top);
      }
    }
  }

  /** Only existing testers, caches and crossbars are connected. */
  ghost predicate Fresh(b: Build) {
    && (forall t :: t in b.tester ==> t < b.testers)
    && (forall c :: c in b.mem ==> c < |b.caches|)
    && Named(b)
  }

  ghost predicate FreeTesters(b: Build, lo: nat, hi: nat) {
    forall t :: lo <= t < hi ==> t !in b.tester
  }

  ghost predicate FreeMem(b: Build, lo: nat, hi: nat) {
    forall c :: lo <= c < hi ==> c !in b.mem
  }

  /** A tester behind a cache of its own reaches memory if the crossbar does, and the crossbar still does. */
  lemma OwnCacheReaches(b: Build, t: nat, c: nat, name: Name, top: nat)
    requires c !in b.mem && XbarReaches(b, name, top)
    ensures XbarReaches(OwnCache(b, t, c, name), name, top) && Reached(OwnCache(b, t, c, name), t, t + 1, top)
  {
    XbarStillReaches(b, OwnCache(b, t, c, name), name, top);
  }

  lemma OwnStillReached(b: Build, name: Name, first: nat, own: nat, k: nat, lo: nat, hi: nat, top: nat)
    requires FreeTesters(b, first, first + k) && FreeMem(b, own, own + k) && Reached(b, lo, hi, top)
    ensures Reached(Own(b, name, first, own, k), lo, hi, top)
  {
    OwnKeepsTesters(b, name, first, own, k);
    OwnKeepsMem(b, name, first, own, k);
    StillReached(b, Own(b, name, first, own, k), lo, hi, top);
  }

  lemma {:induction false} OwnReached(b: Build, name: Name, first: nat, own: nat, k: nat, top: nat)
    requires FreeTesters(b, first, first + k) && FreeMem(b, own, own + k) && XbarReaches(b, name, top)
    ensures Reached(Own(b, name, first, own, k), first, first + k, top)
    decreases k
  {
    if k > 0 {
      var r := OwnCache(b, first, own, name);
      OwnCacheReaches(b, first, own, name, top);
      OwnReached(r, name, first + 1, own + 1, k - 1, top);
      OwnStillReached(r, name, first + 1, own + 1, k - 1, first, first + 1, top);
    }
  }

  lemma {:induction false} SharedReached(b: Build, name: Name, first: nat, k: nat, top: nat)
    requires forall t :: first <= t < first + k ==> t !in b.tester
    requires XbarReaches(b, name, top)
    ensures Reached(Shared(b, name, first, k), first, first + k, top)
  {
    if k > 0 {
      var mid, r := Shared(b, name, first, k - 1), Shared(b, name, first, k);
      SharedReached(b, name, first, k - 1, top);
      SharedTesters(b, name, first, k - 1);
      StillReached(mid, r, first, first + k - 1, top);
      XbarStillReaches(b, r, name, top);
    }
  }

  /** The cache above a subsystem leads to memory; only the root has none. */
  ghost predicate ParentReaches(b: Build, parent: Option<nat>, level: nat, top: nat) {
    match parent
    case None => level == top
    case Some(c) => level < top && CacheReaches(b, c, level + 1, top)
  }

  lemma TrunkReaches(b: Build, name: Name, s: Shape, parent: Option<nat>, top: nat)
    requires s.Valid() && s.caches != [] && name !in b.master
    requires ParentReaches(b, parent, name.level, top)
    ensures XbarReaches(Trunk(b, name, s, parent), name, top)
  {
    if parent.Some? {
      CacheStillReaches(b, Trunk(b, name, s, parent), parent.value, name.level + 1, top);
    }
  }

  lemma TopReached(b: Build, name: Name, n: nat, parent: nat, top: nat)
    requires n > 0 && name !in b.master && forall t :: t in b.tester ==> t < b.testers
    requires name.level == 0 && ParentReaches(b, Some(parent), 0, top)
    ensures Reached(Top(b, name, n, parent), b.testers, b.testers + n, top)
  {
    var hung := ConnectMaster(AddTesters(b, n), name, parent);
    if n > 1 {
      CacheStillReaches(b, hung, parent, 1, top);
      SharedReached(hung, name, b.testers, n, top);
    } else {
      CacheStillReaches(b, Top(b, name, n, parent), parent, 1, top);
    }
  }

  lemma FanFresh(b: Build, s: Shape, name: Name, tree: nat, count: nat)
    requires s.Valid() && s.Level() < |b.next| && Fresh(b) && tree + count <= |b.caches|
    ensures Fresh(Fan(b, s, name, tree, count))
  {
    FanTesters(b, s, name, tree, count);
    FanMem(b, s, name, tree, count);
    FanKeepsMaster(b, s, name, tree, count);
  }

  lemma FanKeeps(b: Build, s: Shape, name: Name, tree: nat, count: nat)
    requires s.Valid() && s.Level() < |b.next| && Fresh(b) && tree + count <= |b.caches|
    requires forall c :: c in b.mem ==> c < tree
    ensures KeptTesters(b, Fan(b, s, name, tree, count))
    ensures KeptMem(b, Fan(b, s, name, tree, count)) && KeptMaster(b, Fan(b, s, name, tree, count))
  {
    FanKeepsTesters(b, s, name, tree, count);
    FanKeepsMem(b, s, name, tree, count);
    FanKeepsMaster(b, s, name, tree, count);
  }

  /** The next tree cache, once on its crossbar, leads to memory. */
  lemma BranchReaches(b: Build, s: Shape, name: Name, tree: nat, count: nat, top: nat)
    requires s.Valid() && s.Level() < |b.next| && Fresh(b) && tree + count < |b.caches|
    requires forall c :: c in b.mem ==> c < tree
    requires XbarReaches(b, name, top) && name.level <= top
    ensures var r := ConnectMem(Fan(b, s, name, tree, count), tree + count, name);
            && Fresh(r) && CacheReaches(r, tree + count, name.level, top)
            && tree + count !in Fan(b, s, name, tree, count).mem
  {
    var r := Fan(b, s, name, tree, count);
    FanFresh(b, s, name, tree, count);
    FanKeeps(b, s, name, tree, count);
    FanMem(b, s, name, tree, count);
    XbarStillReaches(b, r, name, top);
    XbarStillReaches(r, ConnectMem(r, tree + count, name), name, top);
  }

  lemma {:induction false} TreeReached(b: Build, s: Shape, parent: Option<nat>, top: nat)
    requires s.Valid() && s.Level() < |b.next| && (s.caches == [] ==> parent.Some?)
    requires Fresh(b) && ParentReaches(b, parent, s.Level(), top)
    ensures Reached(Tree(b, s, parent), b.testers, Tree(b, s, parent).testers, top)
    decreases s.Level(), 1, 0
  {
    var name := Name(s.Level(), b.next[s.Level()]);
    var b1 := Take(b, s.Level());
    ParentStillReaches(b, b1, parent, s.Level(), top);
    if s.caches == [] {
      TopReached(b1, name, s.testers[0], parent.value, top);
    } else {
      TrunkFresh(b, s, parent, name);
      TrunkReaches(b1, name, s, parent, top);
      CrownReached(Trunk(b1, name, s, parent), s.Above(), name, b.testers, s.testers[0], |b.caches|, s.caches[0], top);
    }
  }

  lemma ParentStillReaches(b: Build, more: Build, parent: Option<nat>, level: nat, top: nat)
    requires more.mem == b.mem && more.master == b.master && ParentReaches(b, parent, level, top)
    ensures ParentReaches(more, parent, level, top)
  {
    if parent.Some? {
      CacheStillReaches(b, more, parent.value, level + 1, top);
    }
  }

  lemma TrunkFresh(b: Build, s: Shape, parent: Option<nat>, name: Name)
    requires s.Valid() && s.Level() < |b.next| && s.caches != [] && name == Name(s.Level(), b.next[s.Level()])
    requires Fresh(b)
    ensures var trunk := Trunk(Take(b, s.Level()), name, s, parent);
            && Fresh(trunk) && (forall c :: c in trunk.mem ==> c < |b.caches|)
            && FreeTesters(trunk, b.testers, trunk.testers)
            && trunk.testers == b.testers + s.testers[0] && |trunk.caches| == |b.caches| + s.caches[0] + s.testers[0]
  {
  }

  lemma CrownFree(trunk: Build, s: Shape, name: Name, first: nat, tree: nat, fan: nat, top: nat)
    requires s.Valid() && s.Level() < |trunk.next| && Fresh(trunk) && tree + fan <= |trunk.caches|
    requires forall c :: c in trunk.mem ==> c < tree
    requires first <= trunk.testers && FreeTesters(trunk, first, trunk.testers) && XbarReaches(trunk, name, top)
    ensures var crown := Fan(trunk, s, name, tree, fan);
            && FreeTesters(crown, first, trunk.testers) && FreeMem(crown, tree + fan, |trunk.caches|)
            && XbarReaches(crown, name, top)
  {
    FanKeeps(trunk, s, name, tree, fan);
    FanTesters(trunk, s, name, tree, fan);
    FanMem(trunk, s, name, tree, fan);
    XbarStillReaches(trunk, Fan(trunk, s, name, tree, fan), name, top);
  }

  lemma {:induction false} CrownReached(trunk: Build, s: Shape, name: Name, first: nat, n: nat, tree: nat, fan: nat,
                                        top: nat)
    requires s.Valid() && s.Level() < |trunk.next| && Fresh(trunk) && tree + fan + n == |trunk.caches|
    requires forall c :: c in trunk.mem ==> c < tree
    requires first + n == trunk.testers && FreeTesters(trunk, first, trunk.testers)
    requires XbarReaches(trunk, name, top) && name.level == s.Level() + 1 <= top
    ensures var r := Crown(trunk, s, name, first, n, tree, fan); Reached(r, first, r.testers, top)
    decreases s.Level(), 4, 0
  {
    var crown := Fan(trunk, s, name, tree, fan);
    FanReached(trunk, s, name, tree, fan, top);
    CrownFree(trunk, s, name, first, tree, fan, top);
    OwnReached(crown, name, first, tree + fan, n, top);
    OwnStillReached(crown, name, first, tree + fan, n, trunk.testers, crown.testers, top);
  }

  lemma TreeStillReached(r: Build, c: nat, name: Name, s: Shape, lo: nat, top: nat)
    requires s.Valid() && s.Level() < |r.next| && Fresh(ConnectMem(r, c, name)) && c !in r.mem
    requires Reached(r, lo, r.testers, top)
    ensures Reached(Tree(ConnectMem(r, c, name), s, Some(c)), lo, r.testers, top)
  {
    var r1 := ConnectMem(r, c, name);
    TreeKeepsTesters(r1, s, Some(c));
    TreeKeepsMem(r1, s, Some(c));
    TreeKeepsMaster(r1, s, Some(c));
    StillReached(r, r1, lo, r.testers, top);
    StillReached(r1, Tree(r1, s, Some(c)), lo, r.testers, top);
  }

  lemma {:induction false} BranchReached(r: Build, c: nat, name: Name, s: Shape, lo: nat, top: nat)
    requires s.Valid() && s.Level() < |r.next| && Fresh(ConnectMem(r, c, name)) && c !in r.mem && lo <= r.testers
    requires CacheReaches(ConnectMem(r, c, name), c, s.Level() + 1, top) && s.Level() < top
    requires Reached(r, lo, r.testers, top)
    ensures var to := Branch(r, s, name, c); Reached(to, lo, to.testers, top)
    decreases s.Level(), 2, 0
  {
    TreeReached(ConnectMem(r, c, name), s, Some(c), top);
    TreeStillReached(r, c, name, s, lo, top);
  }

  lemma {:induction false} FanReached(b: Build, s: Shape, name: Name, tree: nat, count: nat, top: nat)
    requires s.Valid() && s.Level() < |b.next| && Fresh(b) && tree + count <= |b.caches|
    requires forall c :: c in b.mem ==> c < tree
    requires XbarReaches(b, name, top) && name.level == s.Level() + 1 <= top
    ensures Reached(Fan(b, s, name, tree, count), b.testers, Fan(b, s, name, tree, count).testers, top)
    decreases s.Level(), 3, count
  {
    if count > 0 {
      FanReached(b, s, name, tree, count - 1, top);
      BranchReaches(b, s, name, tree, count - 1, top);
      BranchReached(Fan(b, s, name, tree, count - 1), tree + count - 1, name, s, b.testers, top);
    }
  }
}
