/** Which ports of the memory tester's tree are connected: exactly those of the testers and caches it adds. */
module TesterPorts {
  import opened Text
  import opened TesterWiring

  // ---------- tester ports ----------

  /** The testers connected since: exactly those in the range. */
  ghost predicate TestersWired(from: Build, to: Build, lo: nat, hi: nat) {
    forall t :: t in to.tester <==> t in from.tester || lo <= t < hi
  }

  lemma {:induction false} OwnTesters(b: Build, name: Name, first: nat, own: nat, k: nat)
    ensures TestersWired(b, Own(b, name, first, own, k), first, first + k)
    decreases k
  {
    if k > 0 {
      OwnTesters(OwnCache(b, first, own, name), name, first + 1, own + 1, k - 1);
    }
  }

  lemma {:induction false} SharedTesters(b: Build, name: Name, first: nat, k: nat)
    ensures TestersWired(b, Shared(b, name, first, k), first, first + k)
  {
    if k > 0 {
      SharedTesters(b, name, first, k - 1);
    }
  }

  lemma {:induction false} TreeTesters(b: Build, s: Shape, parent: Option<nat>)
    requires s.Valid() && s.Level() < |b.next| && (s.caches == [] ==> parent.Some?)
    ensures TestersWired(b, Tree(b, s, parent), b.testers, Tree(b, s, parent).testers)
    decreases s.Level(), 1, 0
  {
    var name := Name(s.Level(), b.next[s.Level()]);
    if s.caches != [] {
      var trunk := Trunk(Take(b, s.Level()), name, s, parent);
      var crown := Fan(trunk, s.Above(), name, |b.caches|, s.caches[0]);
      FanTesters(trunk, s.Above(), name, |b.caches|, s.caches[0]);
      OwnTesters(crown, name, b.testers, |b.caches| + s.caches[0], s.testers[0]);
    } else if s.testers[0] > 1 {
      var hung := ConnectMaster(AddTesters(Take(b, 0), s.testers[0]), name, parent.value);
      SharedTesters(hung, name, b.testers, s.testers[0]);
    }
  }

  lemma {:induction false} FanTesters(b: Build, s: Shape, name: Name, tree: nat, count: nat)
    requires s.Valid() && s.Level() < |b.next|
    ensures TestersWired(b, Fan(b, s, name, tree, count), b.testers, Fan(b, s, name, tree, count).testers)
    decreases s.Level(), 2, count
  {
    if count > 0 {
      FanTesters(b, s, name, tree, count - 1);
      TreeTesters(ConnectMem(Fan(b, s, name, tree, count - 1), tree + count - 1, name), s, Some(tree + count - 1));
    }
  }

  // ---------- memory sides ----------

  /** The caches whose memory side was connected since: exactly those in the two ranges. */
  ghost predicate MemWired(from: Build, to: Build, lo: nat, hi: nat, lo1: nat, hi1: nat) {
    forall c :: c in to.mem <==> c in from.mem || lo <= c < hi || lo1 <= c < hi1
  }

  lemma {:induction false} OwnMem(b: Build, name: Name, first: nat, own: nat, k: nat)
    ensures MemWired(b, Own(b, name, first, own, k), own, own + k, 0, 0)
    decreases k
  {
    if k > 0 {
      OwnMem(OwnCache(b, first, own, name), name, first + 1, own + 1, k - 1);
    }
  }

  lemma {:induction false} TreeMem(b: Build, s: Shape, parent: Option<nat>)
    requires s.Valid() && s.Level() < |b.next| && (s.caches == [] ==> parent.Some?)
    ensures MemWired(b, Tree(b, s, parent), |b.caches|, |Tree(b, s, parent).caches|, 0, 0)
    decreases s.Level(), 1, 0
  {
    if s.caches != [] {
      var name := Name(s.Level(), b.next[s.Level()]);
      var trunk := Trunk(Take(b, s.Level()), name, s, parent);
      var crown := Fan(trunk, s.Above(), name, |b.caches|, s.caches[0]);
      FanMem(trunk, s.Above(), name, |b.caches|, s.caches[0]);
      OwnMem(crown, name, b.testers, |b.caches| + s.caches[0], s.testers[0]);
    }
  }

  lemma {:induction false} FanMem(b: Build, s: Shape, name: Name, tree: nat, count: nat)
    requires s.Valid() && s.Level() < |b.next|
    ensures MemWired(b, Fan(b, s, name, tree, count), |b.caches|, |Fan(b, s, name, tree, count).caches|,
                     tree, tree + count)
    decreases s.Level(), 2, count
  {
    if count > 0 {
      FanMem(b, s, name, tree, count - 1);
      TreeMem(ConnectMem(Fan(b, s, name, tree, count - 1), tree + count - 1, name), s, Some(tree + count - 1));
    }
  }

  // ---------- CPU sides ----------

  /** The caches whose CPU side was connected since: exactly those in the two ranges. */
  ghost predicate CpuWired(from: Build, to: Build, lo: nat, hi: nat, lo1: nat, hi1: nat) {
    forall c :: c in to.cpu <==> c in from.cpu || lo <= c < hi || lo1 <= c < hi1
  }

  function ParentLo(parent: Option<nat>): nat { if parent.Some? then parent.value else 0 }
  function ParentHi(parent: Option<nat>): nat { if parent.Some? then parent.value + 1 else 0 }

  lemma {:induction false} OwnCpu(b: Build, name: Name, first: nat, own: nat, k: nat)
    ensures CpuWired(b, Own(b, name, first, own, k), own, own + k, 0, 0)
    decreases k
  {
    if k > 0 {
      OwnCpu(OwnCache(b, first, own, name), name, first + 1, own + 1, k - 1);
    }
  }

  lemma {:induction false} TreeCpu(b: Build, s: Shape, parent: Option<nat>)
    requires s.Valid() && s.Level() < |b.next| && (s.caches == [] ==> parent.Some?)
    ensures CpuWired(b, Tree(b, s, parent), |b.caches|, |Tree(b, s, parent).caches|, ParentLo(parent), ParentHi(parent))
    decreases s.Level(), 1, 0
  {
    if s.caches != [] {
      var name := Name(s.Level(), b.next[s.Level()]);
      var trunk := Trunk(Take(b, s.Level()), name, s, parent);
      var crown := Fan(trunk, s.Above(), name, |b.caches|, s.caches[0]);
      FanCpu(trunk, s.Above(), name, |b.caches|, s.caches[0]);
      OwnCpu(crown, name, b.testers, |b.caches| + s.caches[0], s.testers[0]);
    }
  }

  lemma {:induction false} FanCpu(b: Build, s: Shape, name: Name, tree: nat, count: nat)
    requires s.Valid() && s.Level() < |b.next|
    ensures CpuWired(b, Fan(b, s, name, tree, count), |b.caches|, |Fan(b, s, name, tree, count).caches|,
                     tree, tree + count)
    decreases s.Level(), 2, count
  {
    if count > 0 {
      FanCpu(b, s, name, tree, count - 1);
      TreeCpu(ConnectMem(Fan(b, s, name, tree, count - 1), tree + count - 1, name), s, Some(tree + count - 1));
    }
  }
}
