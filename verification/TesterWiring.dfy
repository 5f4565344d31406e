/**
 What the memory tester's builder leaves behind, as a function of what it is asked for: subsystem names,
 testers, caches, and the connections between their ports.
 */
module TesterWiring {
  import opened Text

  datatype Name = Name(level: nat, index: nat)

  /** Where a tester's port can lead. */
  datatype Port = CpuSide(cache: nat) | Slave(xbar: Name)

  /** Cache parameters that change from level to level. */
  datatype Proto = Proto(size: nat, latency: nat, assoc: nat, mshrs: nat, writebackClean: bool, inclusive: bool)

  /**
   The next index per level, the names in use, the testers and caches created, and the connections: what
   each tester port leads to, the crossbar behind each cache's memory side, the cache behind each crossbar's
   master port, and the caches whose CPU side is taken.
   */
  datatype Build = Build(next: seq<nat>, names: seq<Name>, testers: nat, caches: seq<Proto>,
                         tester: map<nat, Port>, mem: map<nat, Name>, master: map<Name, nat>, cpu: set<nat>)

  /** The request for one subtree: caches to fan out to and testers, from its root up, and cache prototypes. */
  datatype Shape = Shape(caches: seq<nat>, testers: seq<nat>, protos: seq<Proto>, l1: Proto) {
    ghost predicate Valid() {
      |protos| == |caches| == |testers| - 1 && testers[|caches|] > 0
    }

    function Level(): nat { |caches| }

    function Above(): Shape
      requires Valid() && caches != []
    {
      Shape(caches[1..], testers[1..], protos[1..], l1)
    }
  }

  /** Nothing built yet, with index counters for the given number of levels. */
  function Start(levels: nat): Build { Build(seq(levels, _ => 0), [], 0, [], map[], map[], map[], {}) }

  // ---------- single steps ----------

  function Take(b: Build, level: nat): Build
    requires level < |b.next|
  {
    b.(next := b.next[level := b.next[level] + 1], names := b.names + [Name(level, b.next[level])])
  }

  function AddTesters(b: Build, n: nat): Build { b.(testers := b.testers + n) }

  function AddCaches(b: Build, n: nat, proto: Proto): Build { b.(caches := b.caches + seq(n, _ => proto)) }

  /** A crossbar's master port goes to a cache's CPU side. */
  function ConnectMaster(b: Build, name: Name, c: nat): Build {
    b.(master := b.master[name := c], cpu := b.cpu + {c})
  }

  /** A cache's memory side goes to a crossbar. */
  function ConnectMem(b: Build, c: nat, name: Name): Build { b.(mem := b.mem[c := name]) }

  /** A tester's port goes to a cache's CPU side. */
  function ConnectCpu(b: Build, t: nat, c: nat): Build {
    b.(tester := b.tester[t := CpuSide(c)], cpu := b.cpu + {c})
  }

  /** A tester's port goes to a crossbar. */
  function ConnectSlave(b: Build, t: nat, name: Name): Build { b.(tester := b.tester[t := Slave(name)]) }

  /** A tester goes behind a cache of its own. */
  function OwnCache(b: Build, t: nat, c: nat, name: Name): Build { ConnectMem(ConnectCpu(b, t, c), c, name) }

  // ---------- whole subsystems ----------

  /** The first `k` testers of a subsystem, each behind a cache of its own. */
  function Own(b: Build, name: Name, first: nat, own: nat, k: nat): (r: Build)
    ensures r == b.(tester := r.tester, mem := r.mem, cpu := r.cpu)
    decreases k
  {
    if k == 0 then b
    else Own(OwnCache(b, first, own, name), name, first + 1, own + 1, k - 1)
  }

  /** The first `k` testers of a top subsystem, all on its crossbar. */
  function Shared(b: Build, name: Name, first: nat, k: nat): (r: Build)
    ensures r == b.(tester := r.tester)
  {
    if k == 0 then b else ConnectSlave(Shared(b, name, first, k - 1), first + k - 1, name)
  }

  /** The testers of a top subsystem, below the cache `parent`. */
  function Top(b: Build, name: Name, n: nat, parent: nat): Build {
    if n > 1 then Shared(ConnectMaster(AddTesters(b, n), name, parent), name, b.testers, n)
    else ConnectCpu(AddTesters(b, n), b.testers, parent)
  }

  /** A subsystem with a crossbar, before it fans out. */
  function Trunk(b: Build, name: Name, s: Shape, parent: Option<nat>): Build
    requires s.Valid() && s.caches != []
  {
    var hung := if parent.Some? then ConnectMaster(AddTesters(b, s.testers[0]), name, parent.value)
                else AddTesters(b, s.testers[0]);
    AddCaches(AddCaches(hung, s.caches[0], s.protos[0]), s.testers[0], s.l1)
  }

  /** The subtree of one subsystem, below `parent` where there is one. */
  function Tree(b: Build, s: Shape, parent: Option<nat>): (r: Build)
    requires s.Valid() && s.Level() < |b.next| && (s.caches == [] ==> parent.Some?)
    ensures |r.next| == |b.next| && b.testers <= r.testers && b.caches <= r.caches
    decreases s.Level(), 1, 0
  {
    var name := Name(s.Level(), b.next[s.Level()]);
    if s.caches == [] then Top(Take(b, 0), name, s.testers[0], parent.value)
    else
      var trunk := Trunk(Take(b, s.Level()), name, s, parent);
      Crown(trunk, s.Above(), name, b.testers, s.testers[0], |b.caches|, s.caches[0])
  }

  /** What stands on a trunk: `fan` subtrees behind the caches from `tree` on, then `n` testers with own caches. */
  function Crown(trunk: Build, s: Shape, name: Name, first: nat, n: nat, tree: nat, fan: nat): (r: Build)
    requires s.Valid() && s.Level() < |trunk.next|
    ensures |r.next| == |trunk.next| && trunk.testers <= r.testers && trunk.caches <= r.caches
    decreases s.Level(), 4, 0
  {
    Own(Fan(trunk, s, name, tree, fan), name, first, tree + fan, n)
  }

  /** `count` subtrees, each behind one of the consecutive caches from `tree` on. */
  function Fan(b: Build, s: Shape, name: Name, tree: nat, count: nat): (r: Build)
    requires s.Valid() && s.Level() < |b.next|
    ensures |r.next| == |b.next| && b.testers <= r.testers && b.caches <= r.caches
    decreases s.Level(), 3, count
  {
    if count == 0 then b else Branch(Fan(b, s, name, tree, count - 1), s, name, tree + count - 1)
  }

  /** One more subtree behind the cache `c`. */
  function Branch(b: Build, s: Shape, name: Name, c: nat): (r: Build)
    requires s.Valid() && s.Level() < |b.next|
    ensures |r.next| == |b.next| && b.testers <= r.testers && b.caches <= r.caches
    decreases s.Level(), 2, 0
  {
    Tree(ConnectMem(b, c, name), s, Some(c))
  }
}
