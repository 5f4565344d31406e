/**
 The shape of the memory tester's tree, subsystem by subsystem: how many caches are on each crossbar, how many of
 them belong to a tester of that subsystem, and how many testers share the crossbar of a top subsystem.
 */
module TesterShape {
  import opened Text
  import opened TesterTree
  import opened TesterWiring
  import opened TesterLaws
  import opened TesterPorts
  import opened TesterPaths

  /** The caches on a crossbar are exactly those in the range. */
  ghost predicate CachesOn(b: Build, n: Name, lo: nat, hi: nat) {
    forall c :: c in b.mem && b.mem[c] == n <==> lo <= c < hi
  }

  /** The testers on a crossbar are exactly those in the range. */
  ghost predicate TestersOn(b: Build, n: Name, lo: nat, hi: nat) {
    forall t :: t in b.tester && b.tester[t] == Slave(n) <==> lo <= t < hi
  }

  /** Consecutive testers lead to consecutive caches. */
  ghost predicate Lead(b: Build, first: nat, own: nat, count: nat) {
    forall t :: first <= t < first + count ==> t in b.tester && b.tester[t] == CpuSide(own + (t - first))
  }

  /** `fan` caches that lead on and one for each of `count` testers, but no tester on the crossbar itself. */
  ghost predicate InnerAt(b: Build, n: Name, fan: nat, count: nat, tree: nat, first: nat) {
    && CachesOn(b, n, tree, tree + fan + count) && Lead(b, first, tree + fan, count) && TestersOn(b, n, 0, 0)
  }

  ghost predicate Inner(b: Build, n: Name, fan: nat, count: nat) {
    exists tree: nat, first: nat :: InnerAt(b, n, fan, count, tree, first)
  }

  /** Several testers on a crossbar, or one that needs none. */
  ghost predicate OuterAt(b: Build, n: Name, count: nat, first: nat) {
    && TestersOn(b, n, first, first + (if count > 1 then count else 0)) && CachesOn(b, n, 0, 0)
  }

  ghost predicate Outer(b: Build, n: Name, count: nat) { exists first: nat :: OuterAt(b, n, count, first) }

  /** The subsystem has what the specification says for its level. */
  ghost predicate SystemOk(b: Build, n: Name, caches: seq<nat>, testers: seq<nat>)
    requires |testers| == |caches| + 1
  {
    n.level <= |caches| &&
    if n.level == 0 then Outer(b, n, testers[|caches|])
    else Inner(b, n, caches[|caches| - n.level], testers[|caches| - n.level])
  }

  /** The name has been given already. */
  ghost predicate Old(b: Build, n: Name) { n.level < |b.next| && n.index < b.next[n.level] }

  // ---------- what stays ----------

  /** Nothing has been added to the crossbar. */
  ghost predicate NotOn(b: Build, r: Build, n: Name) {
    && (forall c :: c in r.mem && c !in b.mem ==> r.mem[c] != n)
    && (forall t :: t in r.tester && t !in b.tester ==> r.tester[t] != Slave(n))
  }

  lemma InnerKept(b: Build, r: Build, n: Name, fan: nat, count: nat)
    requires Inner(b, n, fan, count) && KeptMem(b, r) && KeptTesters(b, r) && NotOn(b, r, n)
    ensures Inner(r, n, fan, count)
  {
    var tree: nat, first: nat :| InnerAt(b, n, fan, count, tree, first);
    assert InnerAt(r, n, fan, count, tree, first);
  }

  lemma OuterKept(b: Build, r: Build, n: Name, count: nat)
    requires Outer(b, n, count) && KeptMem(b, r) && KeptTesters(b, r) && NotOn(b, r, n)
    ensures Outer(r, n, count)
  {
    var first: nat :| OuterAt(b, n, count, first);
    assert OuterAt(r, n, count, first);
  }

  lemma SystemKept(b: Build, r: Build, n: Name, s: Shape)
    requires s.Valid() && SystemOk(b, n, s.caches, s.testers) && KeptMem(b, r) && KeptTesters(b, r) && NotOn(b, r, n)
    ensures SystemOk(r, n, s.caches, s.testers)
  {
    if n.level == 0 {
      OuterKept(b, r, n, s.testers[s.Level()]);
    } else {
      InnerKept(b, r, n, s.caches[s.Level() - n.level], s.testers[s.Level() - n.level]);
    }
  }

  // ---------- what is added ----------

  /** Whatever is added is on crossbars with new names. */
  ghost predicate OnNew(b: Build, r: Build) {
    && (forall c :: c in r.mem && c !in b.mem ==> !Old(b, r.mem[c]))
    && (forall t :: t in r.tester && t !in b.tester && r.tester[t].Slave? ==> !Old(b, r.tester[t].xbar))
  }

  /** The same, but for consecutive caches on the given crossbar. */
  ghost predicate OnNewBut(b: Build, r: Build, name: Name, lo: nat, hi: nat) {
    && (forall c :: c in r.mem && c !in b.mem ==> if lo <= c < hi then r.mem[c] == name else !Old(b, r.mem[c]))
    && (forall t :: t in r.tester && t !in b.tester && r.tester[t].Slave? ==> !Old(b, r.tester[t].xbar))
  }

  ghost predicate Grown(b: Build, r: Build) {
    |r.next| == |b.next| && forall l :: 0 <= l < |b.next| ==> b.next[l] <= r.next[l]
  }

  lemma FanGrown(b: Build, s: Shape, name: Name, tree: nat, count: nat)
    requires s.Valid() && s.Level() < |b.next|
    ensures Grown(b, Fan(b, s, name, tree, count))
  {
    FanNumbers(b, s, name, tree, count);
  }

  /** Every added tester leads to its own cache. */
  lemma {:induction false} OwnLead(b: Build, name: Name, first: nat, own: nat, k: nat)
    requires FreeTesters(b, first, first + k)
    ensures Lead(Own(b, name, first, own, k), first, own, k)
    decreases k
  {
    if k > 0 {
      var next := OwnCache(b, first, own, name);
      OwnLead(next, name, first + 1, own + 1, k - 1);
      OwnKeepsTesters(next, name, first + 1, own + 1, k - 1);
    }
  }

  ghost predicate AllOn(b: Build, name: Name, lo: nat, hi: nat) {
    forall c :: lo <= c < hi ==> c in b.mem && b.mem[c] == name
  }

  /** Every such cache is on the crossbar. */
  lemma {:induction false} OwnOn(b: Build, name: Name, first: nat, own: nat, k: nat)
    requires FreeMem(b, own, own + k)
    ensures AllOn(Own(b, name, first, own, k), name, own, own + k)
    decreases k
  {
    if k > 0 {
      var next := OwnCache(b, first, own, name);
      OwnOn(next, name, first + 1, own + 1, k - 1);
      OwnKeepsMem(next, name, first + 1, own + 1, k - 1);
    }
  }

  lemma {:induction false} SharedAre(b: Build, name: Name, first: nat, k: nat)
    ensures forall t :: first <= t < first + k ==>
              t in Shared(b, name, first, k).tester && Shared(b, name, first, k).tester[t] == Slave(name)
  {
    if k > 0 {
      SharedAre(b, name, first, k - 1);
    }
  }

  lemma OwnNew(b: Build, name: Name, first: nat, own: nat, k: nat)
    requires FreeTesters(b, first, first + k) && FreeMem(b, own, own + k)
    ensures OnNewBut(b, Own(b, name, first, own, k), name, own, own + k)
    ensures forall n :: n != name ==> NotOn(b, Own(b, name, first, own, k), n)
  {
    OwnLead(b, name, first, own, k);
    OwnOn(b, name, first, own, k);
    OwnTesters(b, name, first, own, k);
    OwnMem(b, name, first, own, k);
  }

  lemma {:induction false} TreeNew(b: Build, s: Shape, parent: Option<nat>)
    requires s.Valid() && s.Level() < |b.next| && (s.caches == [] ==> parent.Some?) && Fresh(b)
    ensures OnNew(b, Tree(b, s, parent))
    decreases s.Level(), 1, 0
  {
    var name := Name(s.Level(), b.next[s.Level()]);
    if s.caches == [] {
      TakeTopNew(b, name, s.testers[0], parent.value);
    } else {
      TrunkFresh(b, s, parent, name);
      var trunk := Trunk(Take(b, s.Level()), name, s, parent);
      CrownNew(trunk, s.Above(), name, b.testers, s.testers[0], |b.caches|, s.caches[0]);
      TrunkNew(b, trunk, Tree(b, s, parent), name, |b.caches|, |b.caches| + s.caches[0] + s.testers[0]);
    }
  }

  lemma TakeTopNew(b: Build, name: Name, n: nat, parent: nat)
    requires 0 < |b.next| && name == Name(0, b.next[0]) && forall t :: t in b.tester ==> t < b.testers
    ensures OnNew(b, Top(Take(b, 0), name, n, parent))
  {
    var r := Top(Take(b, 0), name, n, parent);
    if n > 1 {
      var hung := ConnectMaster(AddTesters(Take(b, 0), n), name, parent);
      SharedAre(hung, name, b.testers, n);
      SharedTesters(hung, name, b.testers, n);
    }
  }

  lemma TrunkNew(b: Build, trunk: Build, r: Build, name: Name, lo: nat, hi: nat)
    requires trunk.mem == b.mem && trunk.tester == b.tester && Grown(b, trunk) && !Old(b, name)
    requires OnNewBut(trunk, r, name, lo, hi)
    ensures OnNew(b, r)
  {
  }

  lemma {:induction false} CrownNew(trunk: Build, s: Shape, name: Name, first: nat, n: nat, tree: nat, fan: nat)
    requires s.Valid() && s.Level() < |trunk.next| && Fresh(trunk) && tree + fan + n == |trunk.caches|
    requires forall c :: c in trunk.mem ==> c < tree
    requires first + n == trunk.testers && FreeTesters(trunk, first, trunk.testers)
    ensures OnNewBut(trunk, Crown(trunk, s, name, first, n, tree, fan), name, tree, tree + fan + n)
    decreases s.Level(), 4, 0
  {
    var mid := Fan(trunk, s, name, tree, fan);
    FanNew(trunk, s, name, tree, fan);
    FanLeavesFree(trunk, s, name, first, tree, fan);
    FanGrown(trunk, s, name, tree, fan);
    OwnJoins(trunk, mid, name, first, n, tree, tree + fan);
  }

  lemma OwnJoins(b: Build, mid: Build, name: Name, first: nat, n: nat, lo: nat, own: nat)
    requires OnNewBut(b, mid, name, lo, own) && lo <= own && Grown(b, mid)
    requires FreeTesters(mid, first, first + n) && FreeMem(mid, own, own + n)
    ensures OnNewBut(b, Own(mid, name, first, own, n), name, lo, own + n)
  {
    OwnNew(mid, name, first, own, n);
    OwnKeepsTesters(mid, name, first, own, n);
    OwnKeepsMem(mid, name, first, own, n);
    OwnMem(mid, name, first, own, n);
    JoinNew(b, mid, Own(mid, name, first, own, n), name, lo, own, own + n);
  }

  lemma FanLeavesFree(trunk: Build, s: Shape, name: Name, first: nat, tree: nat, fan: nat)
    requires s.Valid() && s.Level() < |trunk.next| && Fresh(trunk) && tree + fan <= |trunk.caches|
    requires forall c :: c in trunk.mem ==> c < tree
    requires first <= trunk.testers && FreeTesters(trunk, first, trunk.testers)
    ensures var mid := Fan(trunk, s, name, tree, fan);
            FreeTesters(mid, first, trunk.testers) && FreeMem(mid, tree + fan, |trunk.caches|)
  {
    FanTesters(trunk, s, name, tree, fan);
    FanMem(trunk, s, name, tree, fan);
  }

  lemma JoinNew(b: Build, mid: Build, r: Build, name: Name, lo: nat, at: nat, hi: nat)
    requires OnNewBut(b, mid, name, lo, at) && OnNewBut(mid, r, name, at, hi) && lo <= at <= hi
    requires KeptMem(mid, r) && KeptTesters(mid, r) && Grown(b, mid)
    requires forall c :: c in mid.mem && at <= c < hi ==> c in b.mem
    requires forall c :: c in r.mem && c !in mid.mem ==> !(lo <= c < at)
    ensures OnNewBut(b, r, name, lo, hi)
  {
    forall c | c in r.mem && c !in b.mem ensures if lo <= c < hi then r.mem[c] == name else !Old(b, r.mem[c]) {
      if c in mid.mem {
        assert r.mem[c] == mid.mem[c];
      }
    }
    forall t | t in r.tester && t !in b.tester && r.tester[t].Slave? ensures !Old(b, r.tester[t].xbar) {
      if t in mid.tester {
        assert r.tester[t] == mid.tester[t];
      }
    }
  }

  /** The next tree cache is there, and not yet connected. */
  lemma FanReady(b: Build, s: Shape, name: Name, tree: nat, count: nat)
    requires s.Valid() && s.Level() < |b.next| && Fresh(b) && tree + count < |b.caches|
    requires forall c :: c in b.mem ==> c < tree
    ensures var mid := Fan(b, s, name, tree, count);
            Fresh(mid) && Grown(b, mid) && tree + count < |mid.caches| && tree + count !in mid.mem
  {
    FanFresh(b, s, name, tree, count);
    FanMem(b, s, name, tree, count);
    FanGrown(b, s, name, tree, count);
  }

  lemma {:induction false} FanNew(b: Build, s: Shape, name: Name, tree: nat, count: nat)
    requires s.Valid() && s.Level() < |b.next| && Fresh(b) && tree + count <= |b.caches|
    requires forall c :: c in b.mem ==> c < tree
    ensures OnNewBut(b, Fan(b, s, name, tree, count), name, tree, tree + count)
    decreases s.Level(), 3, count
  {
    if count > 0 {
      FanNew(b, s, name, tree, count - 1);
      NextNew(b, s, name, tree, count - 1, Fan(b, s, name, tree, count - 1));
    }
  }

  lemma {:induction false} NextNew(b: Build, s: Shape, name: Name, tree: nat, count: nat, mid: Build)
    requires s.Valid() && s.Level() < |b.next| && Fresh(b) && tree + count < |b.caches|
    requires forall c :: c in b.mem ==> c < tree
    requires mid == Fan(b, s, name, tree, count) && OnNewBut(b, mid, name, tree, tree + count)
    ensures OnNewBut(b, Branch(mid, s, name, tree + count), name, tree, tree + count + 1)
    decreases s.Level(), 2, 2
  {
    FanReady(b, s, name, tree, count);
    BranchJoins(b, mid, s, name, tree, tree + count);
  }

  lemma {:induction false} BranchJoins(b: Build, mid: Build, s: Shape, name: Name, lo: nat, c: nat)
    requires s.Valid() && s.Level() < |mid.next| && Fresh(mid) && lo <= c < |mid.caches| && c !in mid.mem
    requires OnNewBut(b, mid, name, lo, c) && Grown(b, mid)
    ensures OnNewBut(b, Branch(mid, s, name, c), name, lo, c + 1)
    decreases s.Level(), 2, 1
  {
    BranchNew(mid, s, name, c);
    BranchKeepsTesters(mid, s, name, c);
    BranchKeepsMem(mid, s, name, c);
    BranchBeyond(mid, s, name, c);
    JoinNew(b, mid, Branch(mid, s, name, c), name, lo, c, c + 1);
  }

  /** A branch connects, besides its own cache, only caches that it adds. */
  lemma BranchBeyond(b: Build, s: Shape, name: Name, c: nat)
    requires s.Valid() && s.Level() < |b.next|
    ensures forall d :: d in Branch(b, s, name, c).mem && d !in b.mem ==> d == c || d >= |b.caches|
  {
    TreeMem(ConnectMem(b, c, name), s, Some(c));
  }

  lemma {:induction false} BranchNew(b: Build, s: Shape, name: Name, c: nat)
    requires s.Valid() && s.Level() < |b.next| && Fresh(b) && c < |b.caches| && c !in b.mem
    ensures OnNewBut(b, Branch(b, s, name, c), name, c, c + 1)
    decreases s.Level(), 2, 0
  {
    var b1 := ConnectMem(b, c, name);
    TreeNew(b1, s, Some(c));
    TreeKeepsMem(b1, s, Some(c));
  }

  // ---------- names not given yet ----------

  /** No name that has not been given is in use. */
  ghost predicate NoneAhead(b: Build) {
    && (forall c :: c in b.mem ==> Old(b, b.mem[c]))
    && (forall t :: t in b.tester && b.tester[t].Slave? ==> Old(b, b.tester[t].xbar))
  }

  lemma {:induction false} OwnAhead(b: Build, name: Name, first: nat, own: nat, k: nat)
    requires NoneAhead(b) && Old(b, name)
    ensures NoneAhead(Own(b, name, first, own, k))
    decreases k
  {
    if k > 0 {
      OwnAhead(OwnCache(b, first, own, name), name, first + 1, own + 1, k - 1);
    }
  }

  lemma {:induction false} SharedAhead(b: Build, name: Name, first: nat, k: nat)
    requires NoneAhead(b) && Old(b, name)
    ensures NoneAhead(Shared(b, name, first, k))
  {
    if k > 0 {
      SharedAhead(b, name, first, k - 1);
    }
  }

  lemma TakeAhead(b: Build, level: nat)
    requires NoneAhead(b) && level < |b.next|
    ensures NoneAhead(Take(b, level)) && Old(Take(b, level), Name(level, b.next[level]))
  {
  }

  lemma TopAhead(b: Build, name: Name, n: nat, parent: nat)
    requires NoneAhead(b) && Old(b, name)
    ensures NoneAhead(Top(b, name, n, parent))
  {
    if n > 1 {
      SharedAhead(ConnectMaster(AddTesters(b, n), name, parent), name, b.testers, n);
    }
  }

  lemma TrunkAhead(b: Build, name: Name, s: Shape, parent: Option<nat>)
    requires s.Valid() && s.caches != [] && NoneAhead(b) && Old(b, name)
    ensures NoneAhead(Trunk(b, name, s, parent)) && Old(Trunk(b, name, s, parent), name)
  {
  }

  lemma {:induction false} TreeAhead(b: Build, s: Shape, parent: Option<nat>)
    requires s.Valid() && s.Level() < |b.next| && (s.caches == [] ==> parent.Some?) && NoneAhead(b)
    ensures NoneAhead(Tree(b, s, parent))
    decreases s.Level(), 1, 0
  {
    var name := Name(s.Level(), b.next[s.Level()]);
    TakeAhead(b, s.Level());
    if s.caches == [] {
      TopAhead(Take(b, 0), name, s.testers[0], parent.value);
    } else {
      TrunkAhead(Take(b, s.Level()), name, s, parent);
      var trunk := Trunk(Take(b, s.Level()), name, s, parent);
      CrownAhead(trunk, s.Above(), name, b.testers, s.testers[0], |b.caches|, s.caches[0]);
    }
  }

  lemma {:induction false} CrownAhead(trunk: Build, s: Shape, name: Name, first: nat, n: nat, tree: nat, fan: nat)
    requires s.Valid() && s.Level() < |trunk.next| && NoneAhead(trunk) && Old(trunk, name)
    ensures NoneAhead(Crown(trunk, s, name, first, n, tree, fan))
    decreases s.Level(), 4, 0
  {
    FanAhead(trunk, s, name, tree, fan);
    OwnAhead(Fan(trunk, s, name, tree, fan), name, first, tree + fan, n);
  }

  lemma {:induction false} FanAhead(b: Build, s: Shape, name: Name, tree: nat, count: nat)
    requires s.Valid() && s.Level() < |b.next| && NoneAhead(b) && Old(b, name)
    ensures NoneAhead(Fan(b, s, name, tree, count)) && Old(Fan(b, s, name, tree, count), name)
    decreases s.Level(), 3, count
  {
    FanGrown(b, s, name, tree, count);
    if count > 0 {
      FanAhead(b, s, name, tree, count - 1);
      BranchAhead(Fan(b, s, name, tree, count - 1), s, name, tree + count - 1);
    }
  }

  lemma {:induction false} BranchAhead(b: Build, s: Shape, name: Name, c: nat)
    requires s.Valid() && s.Level() < |b.next| && NoneAhead(b) && Old(b, name)
    ensures NoneAhead(Branch(b, s, name, c))
    decreases s.Level(), 2, 0
  {
    TreeAhead(ConnectMem(b, c, name), s, Some(c));
  }

  // ---------- the shape ----------

  /** Every subsystem named since has what the specification says. */
  ghost predicate NewOk(b: Build, r: Build, s: Shape)
    requires s.Valid()
  {
    forall n :: Old(r, n) && !Old(b, n) ==> SystemOk(r, n, s.caches, s.testers)
  }

  lemma TopShaped(b: Build, name: Name, n: nat, parent: nat)
    requires 0 < |b.next| && name == Name(0, b.next[0]) && Fresh(b) && NoneAhead(b)
    ensures Outer(Top(Take(b, 0), name, n, parent), name, n)
  {
    var r := Top(Take(b, 0), name, n, parent);
    if n > 1 {
      var hung := ConnectMaster(AddTesters(Take(b, 0), n), name, parent);
      SharedAre(hung, name, b.testers, n);
      SharedTesters(hung, name, b.testers, n);
      SharedKeeps(hung, name, b.testers, n);
    }
    assert OuterAt(r, name, n, b.testers);
  }

  /** A finished subsystem with a crossbar. */
  lemma CrownShaped(trunk: Build, s: Shape, name: Name, first: nat, n: nat, tree: nat, fan: nat, r: Build)
    requires s.Valid() && s.Level() < |trunk.next| && Fresh(trunk) && tree + fan + n == |trunk.caches|
    requires forall c :: c in trunk.mem ==> c < tree
    requires first + n == trunk.testers && FreeTesters(trunk, first, trunk.testers)
    requires Old(trunk, name) && CachesOn(trunk, name, 0, 0) && TestersOn(trunk, name, 0, 0)
    requires r == Crown(trunk, s, name, first, n, tree, fan)
    ensures Inner(r, name, fan, n)
  {
    CrownNew(trunk, s, name, first, n, tree, fan);
    CrownKeepsTesters(trunk, s, name, first, n, tree, fan);
    CrownKeepsMem(trunk, s, name, first, n, tree, fan);
    CrownFills(trunk, s, name, first, n, tree, fan, r);
    assert InnerAt(r, name, fan, n, tree, first);
  }

  lemma CrownFills(trunk: Build, s: Shape, name: Name, first: nat, n: nat, tree: nat, fan: nat, r: Build)
    requires s.Valid() && s.Level() < |trunk.next| && Fresh(trunk) && tree + fan + n == |trunk.caches|
    requires forall c :: c in trunk.mem ==> c < tree
    requires first + n == trunk.testers && FreeTesters(trunk, first, trunk.testers)
    requires r == Crown(trunk, s, name, first, n, tree, fan)
    ensures Lead(r, first, tree + fan, n) && forall c :: tree <= c < tree + fan + n ==> c in r.mem
  {
    var mid := Fan(trunk, s, name, tree, fan);
    FanLeavesFree(trunk, s, name, first, tree, fan);
    FanMem(trunk, s, name, tree, fan);
    OwnLead(mid, name, first, tree + fan, n);
    OwnMem(mid, name, first, tree + fan, n);
  }

  lemma SystemAbove(b: Build, n: Name, s: Shape)
    requires s.Valid() && s.caches != [] && SystemOk(b, n, s.Above().caches, s.Above().testers)
    ensures SystemOk(b, n, s.caches, s.testers)
  {
  }

  lemma {:induction false} TreeShaped(b: Build, s: Shape, parent: Option<nat>)
    requires s.Valid() && s.Level() < |b.next| && (s.caches == [] ==> parent.Some?) && Fresh(b) && NoneAhead(b)
    ensures NewOk(b, Tree(b, s, parent), s)
    decreases s.Level(), 1, 0
  {
    var name, r := Name(s.Level(), b.next[s.Level()]), Tree(b, s, parent);
    if s.caches == [] {
      TopShaped(b, name, s.testers[0], parent.value);
      forall n | Old(r, n) && !Old(b, n) ensures n == name {
      }
    } else {
      var trunk := Trunk(Take(b, s.Level()), name, s, parent);
      TrunkFresh(b, s, parent, name);
      TrunkEmpty(b, s, parent, name, trunk);
      CrownShaped(trunk, s.Above(), name, b.testers, s.testers[0], |b.caches|, s.caches[0], r);
      CrownNewOk(trunk, s.Above(), name, b.testers, s.testers[0], |b.caches|, s.caches[0], r);
      TrunkNewOk(b, trunk, s, name, r);
    }
  }

  /** Nothing is on a crossbar whose name has just been given. */
  lemma TrunkEmpty(b: Build, s: Shape, parent: Option<nat>, name: Name, trunk: Build)
    requires s.Valid() && s.Level() < |b.next| && s.caches != [] && name == Name(s.Level(), b.next[s.Level()])
    requires NoneAhead(b) && trunk == Trunk(Take(b, s.Level()), name, s, parent)
    ensures NoneAhead(trunk) && Old(trunk, name) && CachesOn(trunk, name, 0, 0) && TestersOn(trunk, name, 0, 0)
    ensures trunk.next == b.next[s.Level() := b.next[s.Level()] + 1]
  {
    TakeAhead(b, s.Level());
    TrunkAhead(Take(b, s.Level()), name, s, parent);
  }

  lemma TrunkNewOk(b: Build, trunk: Build, s: Shape, name: Name, r: Build)
    requires s.Valid() && s.caches != [] && s.Level() < |b.next| && name == Name(s.Level(), b.next[s.Level()])
    requires trunk.next == b.next[s.Level() := b.next[s.Level()] + 1] && NewOk(trunk, r, s.Above())
    requires Inner(r, name, s.caches[0], s.testers[0])
    ensures NewOk(b, r, s)
  {
    forall n | Old(r, n) && !Old(b, n) ensures SystemOk(r, n, s.caches, s.testers) {
      if Old(trunk, n) {
        assert n == name;
      } else {
        SystemAbove(r, n, s);
      }
    }
  }

  lemma {:induction false} CrownNewOk(trunk: Build, s: Shape, name: Name, first: nat, n: nat, tree: nat, fan: nat,
                                      r: Build)
    requires s.Valid() && s.Level() < |trunk.next| && Fresh(trunk) && tree + fan + n == |trunk.caches|
    requires forall c :: c in trunk.mem ==> c < tree
    requires first + n == trunk.testers && FreeTesters(trunk, first, trunk.testers)
    requires NoneAhead(trunk) && Old(trunk, name) && r == Crown(trunk, s, name, first, n, tree, fan)
    ensures NewOk(trunk, r, s)
    decreases s.Level(), 4, 0
  {
    FanShaped(trunk, s, name, tree, fan);
    FanLeavesFree(trunk, s, name, first, tree, fan);
    OwnNewOk(trunk, Fan(trunk, s, name, tree, fan), s, name, first, tree + fan, n, r);
  }

  lemma OwnNewOk(b: Build, mid: Build, s: Shape, name: Name, first: nat, own: nat, n: nat, r: Build)
    requires s.Valid() && NewOk(b, mid, s) && Old(b, name) && r == Own(mid, name, first, own, n)
    requires FreeTesters(mid, first, first + n) && FreeMem(mid, own, own + n)
    ensures NewOk(b, r, s)
  {
    OwnNew(mid, name, first, own, n);
    OwnKeepsTesters(mid, name, first, own, n);
    OwnKeepsMem(mid, name, first, own, n);
    forall m | Old(r, m) && !Old(b, m) ensures SystemOk(r, m, s.caches, s.testers) {
      assert Old(mid, m) && m != name;
      SystemKept(mid, r, m, s);
    }
  }

  lemma {:induction false} FanShaped(b: Build, s: Shape, name: Name, tree: nat, count: nat)
    requires s.Valid() && s.Level() < |b.next| && Fresh(b) && tree + count <= |b.caches|
    requires (forall c :: c in b.mem ==> c < tree) && NoneAhead(b) && Old(b, name)
    ensures NewOk(b, Fan(b, s, name, tree, count), s)
    decreases s.Level(), 3, count
  {
    if count > 0 {
      var mid, c := Fan(b, s, name, tree, count - 1), tree + count - 1;
      FanShaped(b, s, name, tree, count - 1);
      FanReady(b, s, name, tree, count - 1);
      FanAhead(b, s, name, tree, count - 1);
      BranchShaped(b, mid, s, name, c);
    }
  }

  /** One more branch: the subsystems before it keep what they have, and those in it get what they should. */
  lemma {:induction false} BranchShaped(b: Build, mid: Build, s: Shape, name: Name, c: nat)
    requires s.Valid() && s.Level() < |mid.next| && Fresh(mid) && c < |mid.caches| && c !in mid.mem
    requires NoneAhead(mid) && Old(mid, name) && Old(b, name) && NewOk(b, mid, s)
    ensures NewOk(b, Branch(mid, s, name, c), s)
    decreases s.Level(), 2, 0
  {
    var b1, r := ConnectMem(mid, c, name), Branch(mid, s, name, c);
    TreeShaped(b1, s, Some(c));
    BranchNew(mid, s, name, c);
    BranchKeepsTesters(mid, s, name, c);
    BranchKeepsMem(mid, s, name, c);
    forall n | Old(r, n) && !Old(b, n) ensures SystemOk(r, n, s.caches, s.testers) {
      if Old(mid, n) {
        SystemKept(mid, r, n, s);
      } else {
        assert !Old(b1, n);
      }
    }
  }
}
