/**
 The sequencers of a GPU system, in the order in which the memory protocol creates them, and the script
 that connects compute units and command processors to them by an index it advances as it goes.
 */
module GpuWiring {
  import opened Arith

  /** CPUs, compute units, compute units per instruction cache and per scalar cache, command processors. */
  datatype Gpu = Gpu(cpus: nat, cus: nat, perSqc: nat, perScalar: nat, cps: nat) {
    predicate Valid() { cus >= 1 && perSqc >= 1 && perScalar >= 1 }

    function Sqcs(): nat
      requires Valid()
    {
      Groups(cus, perSqc)
    }

    function Scalars(): nat
      requires Valid()
    {
      Groups(cus, perScalar)
    }
  }

  datatype Sequencer =
    | Cpu(pair: nat, second: bool)
    | Coalescer(cu: nat)
    | Sqc(index: nat)
    | Scalar(index: nat)
    | CpTcp(index: nat)
    | CpSqc(index: nat)

  // ---------- sharing in groups ----------

  /** The group of member `i` when every `k` consecutive members share one. */
  function Group(i: nat, k: nat): nat
    requires k >= 1
  {
    if i < k then 0 else 1 + Group(i - k, k)
  }

  /** How many groups `n` members make. */
  function Groups(n: nat, k: nat): nat
    requires k >= 1
  {
    if n == 0 then 0 else Group(n - 1, k) + 1
  }

  lemma {:induction false} GroupIsDiv(i: nat, k: nat)
    requires k >= 1
    ensures Group(i, k) == i / k
  {
    if i < k {
      DivModUnique(i, k, 0, i);
    } else {
      GroupIsDiv(i - k, k);
      var q, r := (i - k) / k, (i - k) % k;
      assert (q + 1) * k == q * k + k;
      DivModUnique(i, k, q + 1, r);
    }
  }

  /** The number of groups is the quotient rounded up. */
  lemma GroupsIsCeil(n: nat, k: nat)
    requires k >= 1
    ensures Groups(n, k) == if n % k == 0 then n / k else n / k + 1
  {
    if n == 0 {
      DivModUnique(0, k, 0, 0);
    } else {
      GroupIsDiv(n - 1, k);
      DivModStep(n - 1, k);
    }
  }

  /** A new group starts exactly at the multiples. */
  lemma GroupStep(i: nat, k: nat)
    requires k >= 1 && i > 0
    ensures Group(i, k) == if i % k == 0 then Group(i - 1, k) + 1 else Group(i - 1, k)
  {
    GroupIsDiv(i, k);
    GroupIsDiv(i - 1, k);
    DivModStep(i - 1, k);
  }

  lemma GroupInRange(i: nat, n: nat, k: nat)
    requires i < n && k >= 1
    ensures Group(i, k) < Groups(n, k)
  {
    GroupIsDiv(i, k);
    GroupIsDiv(n - 1, k);
    DivMono(i, n - 1, k);
  }

  // ---------- the list of sequencers ----------

  function Cpus(n: nat): seq<Sequencer> { seq(2 * n, i requires 0 <= i => Cpu(i / 2, i % 2 == 1)) }
  function Coalescers(n: nat): seq<Sequencer> { seq(n, i requires 0 <= i => Coalescer(i)) }
  function SqcList(n: nat): seq<Sequencer> { seq(n, i requires 0 <= i => Sqc(i)) }
  function ScalarList(n: nat): seq<Sequencer> { seq(n, i requires 0 <= i => Scalar(i)) }
  function CpPairs(n: nat): seq<Sequencer> {
    seq(2 * n, i requires 0 <= i => if i % 2 == 0 then CpTcp(i / 2) else CpSqc(i / 2))
  }

  /** Two sequencers per pair of CPUs, then the parts of the GPU one after another. */
  function Layout(g: Gpu): seq<Sequencer>
    requires g.Valid()
  {
    Cpus((g.cpus + 1) / 2) + Coalescers(g.cus) + SqcList(g.Sqcs()) + ScalarList(g.Scalars()) + CpPairs(g.cps)
  }

  method CreateSequencers(g: Gpu) returns (list: seq<Sequencer>)
    requires g.Valid()
    ensures list == Layout(g) && LaidOut(g, list)
  {
    LayoutParts(g);
    list := [];
    for i := 0 to (g.cpus + 1) / 2
      invariant list == Cpus(i)
    {
      list := list + [Cpu(i, false), Cpu(i, true)];
    }
    ghost var a := list;
    for i := 0 to g.cus
      invariant list == a + Coalescers(i)
    {
      list := list + [Coalescer(i)];
    }
    ghost var b := list;
    for i := 0 to g.Sqcs()
      invariant list == b + SqcList(i)
    {
      list := list + [Sqc(i)];
    }
    ghost var c := list;
    for i := 0 to g.Scalars()
      invariant list == c + ScalarList(i)
    {
      list := list + [Scalar(i)];
    }
    ghost var d := list;
    for i := 0 to g.cps
      invariant list == d + CpPairs(i)
    {
      list := list + [CpTcp(i), CpSqc(i)];
    }
  }

  /** Where each part of the list starts. */
  function TcpStart(g: Gpu): nat { 2 * ((g.cpus + 1) / 2) }

  function SqcStart(g: Gpu): nat { TcpStart(g) + g.cus }

  function ScalarStart(g: Gpu): nat
    requires g.Valid()
  {
    SqcStart(g) + g.Sqcs()
  }

  function CpStart(g: Gpu): nat
    requires g.Valid()
  {
    ScalarStart(g) + g.Scalars()
  }

  ghost predicate LaidOut(g: Gpu, list: seq<Sequencer>)
    requires g.Valid()
  {
    && |list| == CpStart(g) + 2 * g.cps
    && (forall k :: 0 <= k < TcpStart(g) ==> list[k] == Cpu(k / 2, k % 2 != 0))
    && (forall k :: TcpStart(g) <= k < SqcStart(g) ==> list[k] == Coalescer(k - TcpStart(g)))
    && (forall k :: SqcStart(g) <= k < ScalarStart(g) ==> list[k] == Sqc(k - SqcStart(g)))
    && (forall k :: ScalarStart(g) <= k < CpStart(g) ==> list[k] == Scalar(k - ScalarStart(g)))
    && (forall k :: CpStart(g) <= k < |list| ==>
          list[k] == if (k - CpStart(g)) % 2 == 0 then CpTcp((k - CpStart(g)) / 2) else CpSqc((k - CpStart(g)) / 2))
  }

  lemma LayoutParts(g: Gpu)
    requires g.Valid()
    ensures LaidOut(g, Layout(g))
  {
  }

  // ---------- connecting ----------

  /** What each compute unit's token, memory, instruction and scalar ports lead to, and each CP's two ports. */
  datatype Wiring = Wiring(token: seq<Sequencer>, memory: seq<Sequencer>, sqc: seq<Sequencer>, scalar: seq<Sequencer>,
                           dcache: seq<Sequencer>, icache: seq<Sequencer>)

  /** Every compute unit's token port: the coalescers of the list, in order. */
  method ConnectTokens(g: Gpu, ports: seq<Sequencer>) returns (token: seq<Sequencer>)
    requires g.Valid() && LaidOut(g, ports)
    ensures token == Coalescers(g.cus)
  {
    token := [];
    for i := 0 to |ports|
      invariant token == Coalescers(if i <= TcpStart(g) then 0 else if i <= SqcStart(g) then i - TcpStart(g) else g.cus)
    {
      if ports[i].Coalescer? {
        token := token + [ports[i]];
      }
    }
  }

  /** The index moves on where a new group starts. */
  method Advance(idx: nat, i: nat, per: nat, ghost start: nat) returns (r: nat)
    requires per >= 1 && idx == start + if i == 0 then 0 else Group(i - 1, per)
    ensures r == start + Group(i, per)
  {
    if i > 0 {
      GroupStep(i, per);
    }
    r := if i > 0 && i % per == 0 then idx + 1 else idx;
  }

  /** Entry `i` is the sequencer of the group of `i`. */
  ghost predicate OfGroup(out: seq<Sequencer>, ports: seq<Sequencer>, start: nat, per: nat, i: nat)
    requires per >= 1 && i < |out|
  {
    start + Group(i, per) < |ports| && out[i] == ports[start + Group(i, per)]
  }

  /** Groups of `per` compute units share a sequencer, and the index advances at the start of each group. */
  method ConnectShared(ports: seq<Sequencer>, start: nat, n: nat, per: nat) returns (out: seq<Sequencer>, idx: nat)
    requires n >= 1 && per >= 1 && start + Groups(n, per) <= |ports|
    ensures |out| == n && forall i :: 0 <= i < n ==> OfGroup(out, ports, start, per, i)
    ensures idx == start + Groups(n, per) - 1
  {
    out, idx := [], start;
    for i := 0 to n
      invariant |out| == i && idx == start + if i == 0 then 0 else Group(i - 1, per)
      invariant forall j :: 0 <= j < i ==> OfGroup(out, ports, start, per, j)
    {
      idx := Advance(idx, i, per, start);
      GroupInRange(i, n, per);
      ghost var before := out;
      out := out + [ports[idx]];
      forall j | 0 <= j < i ensures OfGroup(out, ports, start, per, j) {
        assert OfGroup(before, ports, start, per, j);
      }
    }
  }

  method ConnectSqcs(g: Gpu, ports: seq<Sequencer>, start: nat) returns (sqc: seq<Sequencer>, idx: nat)
    requires g.Valid() && LaidOut(g, ports) && start == SqcStart(g)
    ensures |sqc| == g.cus && idx == ScalarStart(g) - 1
    ensures forall i :: 0 <= i < g.cus ==> sqc[i] == Sqc(Group(i, g.perSqc))
  {
    sqc, idx := ConnectShared(ports, start, g.cus, g.perSqc);
    forall i | 0 <= i < g.cus ensures sqc[i] == Sqc(Group(i, g.perSqc)) {
      GroupInRange(i, g.cus, g.perSqc);
      assert OfGroup(sqc, ports, start, g.perSqc, i);
    }
  }

  method ConnectScalars(g: Gpu, ports: seq<Sequencer>, start: nat) returns (scalar: seq<Sequencer>, idx: nat)
    requires g.Valid() && LaidOut(g, ports) && start == ScalarStart(g)
    ensures |scalar| == g.cus && idx == CpStart(g) - 1
    ensures forall i :: 0 <= i < g.cus ==> scalar[i] == Scalar(Group(i, g.perScalar))
  {
    scalar, idx := ConnectShared(ports, start, g.cus, g.perScalar);
    forall i | 0 <= i < g.cus ensures scalar[i] == Scalar(Group(i, g.perScalar)) {
      GroupInRange(i, g.cus, g.perScalar);
      assert OfGroup(scalar, ports, start, g.perScalar, i);
    }
  }

  /** Every port leads to the sequencer made for it. */
  ghost predicate WiredRight(g: Gpu, w: Wiring)
    requires g.Valid()
  {
    && |w.token| == |w.memory| == |w.sqc| == |w.scalar| == g.cus && |w.dcache| == |w.icache| == g.cps
    && (forall i :: 0 <= i < g.cus ==> w.memory[i] == Coalescer(i))
    && (forall i :: 0 <= i < g.cus ==> w.token[i] == w.memory[i])
    && (forall i :: 0 <= i < g.cus ==> w.sqc[i] == Sqc(Group(i, g.perSqc)))
    && (forall i :: 0 <= i < g.cus ==> w.scalar[i] == Scalar(Group(i, g.perScalar)))
    && (forall i :: 0 <= i < g.cps ==> w.dcache[i] == CpTcp(i) && w.icache[i] == CpSqc(i))
  }

  method ConnectMemory(g: Gpu, ports: seq<Sequencer>, start: nat) returns (memory: seq<Sequencer>, idx: nat)
    requires g.Valid() && LaidOut(g, ports) && start == TcpStart(g)
    ensures |memory| == g.cus && idx == start + g.cus
    ensures forall i :: 0 <= i < g.cus ==> memory[i] == Coalescer(i)
  {
    memory, idx := [], start;
    for i := 0 to g.cus
      invariant |memory| == i && idx == start + i && forall j :: 0 <= j < i ==> memory[j] == Coalescer(j)
    {
      memory := memory + [ports[idx]];
      idx := idx + 1;
    }
  }

  method ConnectCps(g: Gpu, ports: seq<Sequencer>, idx: nat) returns (dcache: seq<Sequencer>, icache: seq<Sequencer>)
    requires g.Valid() && LaidOut(g, ports) && idx == CpStart(g)
    ensures |dcache| == |icache| == g.cps
    ensures forall i :: 0 <= i < g.cps ==> dcache[i] == CpTcp(i) && icache[i] == CpSqc(i)
  {
    dcache, icache := [], [];
    for i := 0 to g.cps
      invariant |dcache| == |icache| == i
      invariant forall j :: 0 <= j < i ==> dcache[j] == CpTcp(j) && icache[j] == CpSqc(j)
    {
      dcache, icache := dcache + [ports[idx + i * 2]], icache + [ports[idx + i * 2 + 1]];
    }
  }

  /**
   The whole connection script. It counts back from the end of the list to find where the GPU starts, and its
   index ends where the list ends.
   */
  method Connect(g: Gpu, ports: seq<Sequencer>) returns (w: Wiring, end: nat)
    requires g.Valid() && ports == Layout(g)
    ensures WiredRight(g, w) && end == |ports|
  {
    LayoutParts(g);
    var start := |ports| - g.cus - g.Sqcs() - g.Scalars();
    start := start - g.cps * 2;
    var token := ConnectTokens(g, ports);
    var memory, idx := ConnectMemory(g, ports, start);
    var sqc, scalar, dcache, icache;
    sqc, idx := ConnectSqcs(g, ports, idx);
    idx := idx + 1;
    scalar, idx := ConnectScalars(g, ports, idx);
    idx := idx + 1;
    dcache, icache := ConnectCps(g, ports, idx);
    w, end := Wiring(token, memory, sqc, scalar, dcache, icache), idx + 2 * g.cps;
  }
}
