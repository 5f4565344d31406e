/**
 The memory tester's script: the checks on what is asked for, the scaled cache prototypes, and the recursive
 builder, which numbers subsystems in a shared list and connects ports while it descends.
 */
module TesterBuilder {
  import opened Text
  import opened TesterTree
  import opened TesterWiring
  import opened TesterLaws
  import opened TesterPorts
  import opened TesterPaths
  import opened TesterSides
  import opened TesterCaches
  import opened TesterShape

  const BLOCK_SIZE := 64

  // ---------- what is asked for ----------

  datatype Refusal = NoCaches | LengthsDiffer | NoTopTesters | NegativeTesters | TooFewCaches | TooManyTesters

  ghost predicate Acceptable(caches: seq<int>, testers: seq<int>) {
    && |caches| >= 1 && |testers| == |caches| + 1 && testers[|caches|] != 0
    && (forall i :: 0 <= i < |testers| ==> testers[i] >= 0)
    && (forall i :: 0 <= i < |caches| ==> caches[i] >= 1)
    && NumTesters(Naturals(caches), Naturals(testers)) <= BLOCK_SIZE
  }

  function Naturals(s: seq<int>): (r: seq<nat>)
    ensures |r| == |s|
  {
    seq(|s|, i requires 0 <= i < |s| => if s[i] >= 0 then s[i] else 0)
  }

  /** The first check that fails, if any. */
  method Check(caches: seq<int>, testers: seq<int>) returns (refusal: Option<Refusal>)
    ensures refusal.None? <==> Acceptable(caches, testers)
    ensures refusal == Some(TooManyTesters) ==>
      |testers| == |caches| + 1 && NumTesters(Naturals(caches), Naturals(testers)) > BLOCK_SIZE
  {
    if |caches| < 1 {
      return Some(NoCaches);
    }
    if |caches| != |testers| - 1 {
      return Some(LengthsDiffer);
    }
    if testers[|testers| - 1] == 0 {
      return Some(NoTopTesters);
    }
    for i := 0 to |testers|
      invariant forall j :: 0 <= j < i ==> testers[j] >= 0
    {
      if testers[i] < 0 {
        return Some(NegativeTesters);
      }
    }
    for i := 0 to |caches|
      invariant forall j :: 0 <= j < i ==> caches[j] >= 1
    {
      if caches[i] < 1 {
        return Some(TooFewCaches);
      }
    }
    var n := Numtesters(Naturals(caches), Naturals(testers));
    return if n > BLOCK_SIZE then Some(TooManyTesters) else None;
  }

  // ---------- cache prototypes ----------

  function Pow10(k: nat): nat { if k == 0 then 1 else Pow10(k - 1) * 10 }

  /** The L1 prototype scaled for the fan-outs between it and a level: capacities multiply, latencies grow tenfold. */
  function Scaled(l1: Proto, fans: seq<nat>): Proto {
    var even := |fans| % 2 == 0;
    Proto(l1.size * Product(fans), l1.latency * Pow10(|fans|), l1.assoc * Product(fans), l1.mshrs * Product(fans),
          even == l1.writebackClean, even == l1.inclusive)
  }

  lemma ScaledOnce(l1: Proto, fans: seq<nat>, x: nat)
    ensures var p := Scaled(l1, fans);
            Scaled(l1, fans + [x]) ==
            Proto(p.size * x, p.latency * 10, p.assoc * x, p.mshrs * x, !p.writebackClean, !p.inclusive)
  {
    ProductSnoc(fans, x);
    Associate(l1.size, Product(fans), x);
    Associate(l1.assoc, Product(fans), x);
    Associate(l1.mshrs, Product(fans), x);
    Associate(l1.latency, Pow10(|fans|), 10);
  }

  lemma Associate(a: int, b: int, c: int)
    ensures a * (b * c) == a * b * c
  {
  }

  /** One prototype per level, that of the lowest level first. */
  method Prototypes(l1: Proto, caches: seq<nat>) returns (protos: seq<Proto>)
    requires caches != []
    ensures |protos| == |caches|
    ensures forall k :: 0 <= k < |caches| ==> protos[k] == Scaled(l1, caches[..|caches| - 1 - k])
  {
    protos := [l1];
    for i := 0 to |caches| - 1
      invariant |protos| == i + 1
      invariant forall k :: 0 <= k <= i ==> protos[k] == Scaled(l1, caches[..i - k])
    {
      ScaledOnce(l1, caches[..i], caches[i]);
      assert caches[..i + 1] == caches[..i] + [caches[i]];
      var p, x := protos[0], caches[i];
      protos := [Proto(p.size * x, p.latency * 10, p.assoc * x, p.mshrs * x, !p.writebackClean, !p.inclusive)] + protos;
    }
  }

  // ---------- the builder ----------

  class TesterSystem {
    var b: Build

    constructor (levels: nat)
      ensures b == Start(levels)
    {
      b := Start(levels);
    }

    /** Puts each tester of a subsystem behind its own cache, and the cache on the crossbar. */
    method OwnCaches(name: Name, first: nat, own: nat, n: nat)
      modifies this
      ensures b == Own(old(b), name, first, own, n)
    {
      for k := 0 to n
        invariant Own(b, name, first + k, own + k, n - k) == Own(old(b), name, first, own, n)
      {
        b := ConnectCpu(b, first + k, own + k);
        b := ConnectMem(b, own + k, name);
      }
    }

    /** The testers of a top subsystem, on a crossbar when there are several. */
    method MakeTop(name: Name, n: nat, parent: nat)
      modifies this
      ensures b == Top(old(b), name, n, parent)
    {
      var first := b.testers;
      b := AddTesters(b, n);
      if n > 1 {
        b := ConnectMaster(b, name, parent);
        ghost var hung := b;
        for k := 0 to n
          invariant b == Shared(hung, name, first, k)
        {
          b := ConnectSlave(b, first + k, name);
        }
      } else {
        b := ConnectCpu(b, first, parent);
      }
    }

    /** Fans out: puts each tree cache on the crossbar and builds a subtree behind it. */
    method FanOut(s: Shape, name: Name, tree: nat, fan: nat)
      requires s.Valid() && s.Level() < |b.next|
      modifies this
      ensures b == Fan(old(b), s, name, tree, fan)
      decreases s.Level(), 2
    {
      for j := 0 to fan
        invariant b == Fan(old(b), s, name, tree, j)
      {
        b := ConnectMem(b, tree + j, name);
        var ok := MakeLevel(s, Some(tree + j));
      }
    }

    /** Builds the subtree of one subsystem; refused where a top subsystem has no cache above it. */
    method MakeLevel(s: Shape, parent: Option<nat>) returns (ok: bool)
      requires s.Valid() && s.Level() < |b.next|
      modifies this
      ensures ok <==> s.caches != [] || parent.Some?
      ensures ok ==> b == Tree(old(b), s, parent)
      decreases s.Level(), 1
    {
      var name := Name(s.Level(), b.next[s.Level()]);
      var first, tree := b.testers, |b.caches|;
      b := Take(b, s.Level());
      if s.caches == [] {
        if parent.None? {
          return false;
        }
        MakeTop(name, s.testers[0], parent.value);
      } else {
        b := AddTesters(b, s.testers[0]);
        if parent.Some? {
          b := ConnectMaster(b, name, parent.value);
        }
        b := AddCaches(AddCaches(b, s.caches[0], s.protos[0]), s.testers[0], s.l1);
        FanOut(s.Above(), name, tree, s.caches[0]);
        OwnCaches(name, first, tree + s.caches[0], s.testers[0]);
      }
      ok := true;
    }
  }

  // ---------- the whole run ----------

  ghost predicate AllConnected(b: Build) {
    && (forall t: nat :: t in b.tester <==> t < b.testers)
    && (forall c: nat :: c in b.mem <==> c < |b.caches|)
    && (forall c: nat :: c in b.cpu <==> c < |b.caches|)
  }

  ghost predicate AllNumbered(b: Build, caches: seq<nat>) {
    && NamesOk(b) && |b.next| == |caches| + 1
    && (forall l :: 0 <= l <= |caches| ==> b.next[l] == Product(caches[..|caches| - l]))
  }

  /** The cache in front of each subsystem is the L1 prototype scaled for the subsystem's level. */
  ghost predicate AllFitting(b: Build, caches: seq<nat>, l1: Proto) {
    forall n :: n in b.master ==>
      && n.level < |caches| && b.master[n] < |b.caches|
      && b.caches[b.master[n]] == Scaled(l1, caches[..n.level])
  }

  /** Each subsystem has the caches and testers that the specification says for its level. */
  ghost predicate AllShaped(b: Build, caches: seq<nat>, testers: seq<nat>)
    requires |testers| == |caches| + 1
  {
    forall n :: n in b.names ==> SystemOk(b, n, caches, testers)
  }

  lemma TreeAllShaped(s: Shape)
    requires s.Valid() && s.caches != []
    ensures AllShaped(Tree(Start(|s.caches| + 1), s, None), s.caches, s.testers)
  {
    var b := Start(|s.caches| + 1);
    TreeShaped(b, s, None);
    TreeNames(b, s, None);
    forall n | n in Tree(b, s, None).names ensures SystemOk(Tree(b, s, None), n, s.caches, s.testers) {
      assert Old(Tree(b, s, None), n) && !Old(b, n);
    }
  }

  /** The testers and caches asked for, every port of theirs connected, and a way to memory for each tester. */
  ghost predicate Complete(b: Build, caches: seq<nat>, testers: seq<nat>, l1: Proto)
    requires |testers| == |caches| + 1
  {
    && b.testers == NumTesters(caches, testers) && |b.caches| == NumCaches(caches, testers)
    && AllConnected(b) && OneUserEach(b)
    && AllNumbered(b, caches) && Reached(b, 0, b.testers, |caches|)
    && AllFitting(b, caches, l1) && BehindL1(b, l1) && AllShaped(b, caches, testers)
  }

  lemma FromNothing(b: Build, r: Build)
    requires b.tester.Keys == {} && b.mem.Keys == {} && b.cpu == {}
    requires TestersWired(b, r, 0, r.testers)
    requires MemWired(b, r, 0, |r.caches|, 0, 0) && CpuWired(b, r, 0, |r.caches|, 0, 0)
    ensures AllConnected(r)
  {
  }

  lemma TreeConnected(s: Shape)
    requires s.Valid() && s.caches != []
    ensures AllConnected(Tree(Start(|s.caches| + 1), s, None))
  {
    var b := Start(|s.caches| + 1);
    TreeTesters(b, s, None);
    TreeMem(b, s, None);
    TreeCpu(b, s, None);
    FromNothing(b, Tree(b, s, None));
  }

  lemma NextComplete(next: seq<nat>, caches: seq<nat>)
    requires Numbered(seq(|caches| + 1, _ => 0), next, caches, 1)
    ensures |next| == |caches| + 1 && forall l :: 0 <= l <= |caches| ==> next[l] == Product(caches[..|caches| - l])
  {
    var none := seq(|caches| + 1, _ => 0);
    forall l | 0 <= l <= |caches| ensures next[l] == Product(caches[..|caches| - l]) {
      assert none[l] == 0 && Taken(caches, 1, l) == Times(1, Product(caches[..|caches| - l]));
      assert Times(1, Product(caches[..|caches| - l])) == Product(caches[..|caches| - l]);
    }
  }

  lemma TreeNumbered(s: Shape)
    requires s.Valid() && s.caches != []
    ensures AllNumbered(Tree(Start(|s.caches| + 1), s, None), s.caches)
  {
    var b := Start(|s.caches| + 1);
    TreeNumbers(b, s, None);
    NextComplete(Tree(b, s, None).next, s.caches);
    TreeNames(b, s, None);
  }

  lemma ScaledFits(b: Build, s: Shape)
    requires s.Valid() && Fitting(b, s.protos)
    requires forall k :: 0 <= k < |s.caches| ==> s.protos[k] == Scaled(s.l1, s.caches[..|s.caches| - 1 - k])
    ensures AllFitting(b, s.caches, s.l1)
  {
    forall n | n in b.master
      ensures n.level < |s.caches| && b.master[n] < |b.caches|
      ensures b.caches[b.master[n]] == Scaled(s.l1, s.caches[..n.level])
    {
      assert s.protos[|s.protos| - 1 - n.level] == Scaled(s.l1, s.caches[..n.level]);
    }
  }

  lemma TreeFitting(s: Shape)
    requires s.Valid() && s.caches != []
    ensures Fitting(Tree(Start(|s.caches| + 1), s, None), s.protos)
  {
    assert s.protos == s.protos[|s.protos| - s.Level()..];
    TreeFits(Start(|s.caches| + 1), s, None, s.protos);
  }

  lemma TreeComplete(s: Shape)
    requires s.Valid() && s.caches != []
    requires forall k :: 0 <= k < |s.caches| ==> s.protos[k] == Scaled(s.l1, s.caches[..|s.caches| - 1 - k])
    ensures Complete(Tree(Start(|s.caches| + 1), s, None), s.caches, s.testers, s.l1)
  {
    var b := Start(|s.caches| + 1);
    TreeSize(b, s, None);
    TreeConnected(s);
    TreeOneUser(b, s, None);
    TreeNumbered(s);
    TreeReached(b, s, None, |s.caches|);
    TreeFitting(s);
    ScaledFits(Tree(b, s, None), s);
    TopPrototype(s);
    TreeL1(b, s, None);
    TreeAllShaped(s);
  }

  /** No fan-out, no scaling. */
  lemma TopPrototype(s: Shape)
    requires s.Valid() && s.caches != []
    requires forall k :: 0 <= k < |s.caches| ==> s.protos[k] == Scaled(s.l1, s.caches[..|s.caches| - 1 - k])
    ensures TopIsL1(s)
  {
    assert s.caches[..0] == [];
    assert s.protos[|s.caches| - 1] == Scaled(s.l1, []);
  }

  /** From the two lists on the command line to the finished tree. */
  method MakeTree(caches: seq<int>, testers: seq<int>, l1: Proto) returns (built: Option<Build>)
    ensures built.Some? <==> Acceptable(caches, testers)
    ensures built.Some? ==>
      && Complete(built.value, Naturals(caches), Naturals(testers), l1)
      && built.value.testers <= BLOCK_SIZE
  {
    var refusal := Check(caches, testers);
    if refusal.Some? {
      return None;
    }
    var protos := Prototypes(l1, Naturals(caches));
    var s := Shape(Naturals(caches), Naturals(testers), protos, l1);
    var system := new TesterSystem(|caches| + 1);
    var ok := system.MakeLevel(s, None);
    TreeComplete(s);
    built := Some(system.b);
  }
}
