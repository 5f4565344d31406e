/**
 The TLBs of a GPU system: which coalescer, and which of its ports, each compute unit's translation ports
 lead to. The quotients that the script formats as whole numbers are exact here, rounded down.
 */
module GpuTlbs {
  import opened Arith
  import opened Text
  import opened GpuWiring

  datatype TlbConfig = PerLane | Mono | PerCu | TwoCu | Unknown

  /** A compute unit's translation port, and the coalescer and slave port it leads to. */
  datatype Link = Link(cu: nat, port: nat, coalescer: nat, slave: nat)

  function NumTlbs(config: TlbConfig, n: nat): nat {
    match config
    case PerLane => 64 * n
    case Mono => 1
    case PerCu => n
    case TwoCu => n / 2
    case Unknown => 0
  }

  /** No two links use the same port of the same coalescer, nor the same port of a compute unit. */
  ghost predicate NoClash(links: seq<Link>) {
    && (forall i, j :: 0 <= i < j < |links| ==>
          links[i].coalescer != links[j].coalescer || links[i].slave != links[j].slave)
    && (forall i, j :: 0 <= i < j < |links| ==> links[i].cu != links[j].cu || links[i].port != links[j].port)
  }

  // ---------- coalescers shared by several compute units ----------

  /** The link of one compute unit when `num` coalescers serve `n` compute units, each its share. */
  function SharedLink(n: nat, num: nat, cu: nat): Link
    requires n >= 1 && num >= 1
  {
    Link(cu, 0, cu * num / n, cu * num % n / num)
  }

  lemma SharedInRange(n: nat, num: nat, cu: nat)
    requires num >= 1 && cu < n
    ensures SharedLink(n, num, cu).coalescer < num
  {
    MulMono(cu + 1, n, num);
    assert (cu + 1) * num == cu * num + num && num * n == (num - 1) * n + n && num * n == n * num;
    DivModUnique(num * n - 1, n, num - 1, n - 1);
    DivMono(cu * num, num * n - 1, n);
  }

  /** Compute units of the same coalescer are as far apart on it as they are in the list. */
  lemma SharedApart(n: nat, num: nat, a: nat, b: nat)
    requires num >= 1 && a < b < n && SharedLink(n, num, a).coalescer == SharedLink(n, num, b).coalescer
    ensures SharedLink(n, num, b).slave == SharedLink(n, num, a).slave + (b - a)
  {
    MulDiff(a, b, num);
    RemaindersApart(a * num, b * num, n, num, b - a);
  }

  lemma MulDiff(a: int, b: int, p: int)
    ensures b * p == a * p + (b - a) * p
  {
  }

  lemma RemaindersApart(x: nat, y: nat, n: nat, p: nat, d: nat)
    requires n >= 1 && p >= 1 && y == x + d * p && x / n == y / n
    ensures y % n / p == x % n / p + d
  {
    var q, step := x / n, d * p;
    assert x == q * n + x % n && y == q * n + y % n;
    assert y % n == x % n + step;
    DivShift(x % n, p, d);
  }

  lemma DivShift(r: int, p: int, d: int)
    requires p > 0
    ensures (r + d * p) / p == r / p + d
  {
    assert (r / p + d) * p == r / p * p + d * p;
    DivModUnique(r + d * p, p, r / p + d, r % p);
  }

  method ShareLink(n: nat, num: nat, cu: nat) returns (link: Link)
    requires n >= 1 && num >= 1
    ensures link == SharedLink(n, num, cu)
  {
    link := Link(cu, 0, cu * num / n, cu * num % n / num);
  }

  method ConnectShares(n: nat, num: nat) returns (links: seq<Link>)
    requires n >= 1 && num >= 1
    ensures |links| == n && forall i :: 0 <= i < n ==> links[i] == SharedLink(n, num, i)
  {
    links := [];
    for cu := 0 to n
      invariant |links| == cu && forall i :: 0 <= i < cu ==> links[i] == SharedLink(n, num, i)
    {
      var link := ShareLink(n, num, cu);
      links := links + [link];
    }
  }

  // ---------- several coalescers per compute unit ----------

  /** One link per coalescer, on its first port; the links of a compute unit use its ports in order. */
  ghost predicate Private(links: seq<Link>, per: nat) {
    forall k :: 0 <= k < |links| ==>
      links[k].coalescer == k == links[k].cu * per + links[k].port && links[k].slave == 0 && links[k].port < per
  }

  method ConnectPrivate(n: nat, per: nat) returns (links: seq<Link>)
    requires per >= 1
    ensures |links| == n * per && Private(links, per)
  {
    links := [];
    for cu := 0 to n
      invariant |links| == cu * per && Private(links, per)
    {
      for tlb := 0 to per
        invariant |links| == cu * per + tlb && Private(links, per)
      {
        links := links + [Link(cu, tlb, cu * per + tlb, 0)];
      }
      assert (cu + 1) * per == cu * per + per;
    }
  }

  /** Either several coalescers per compute unit, or each coalescer shared by several. */
  ghost predicate L1Links(links: seq<Link>, n: nat, num: nat)
    requires n >= 1
  {
    if n <= num then |links| == n * (num / n) && Private(links, num / n)
    else num >= 1 && |links| == n && forall i :: 0 <= i < n ==> links[i] == SharedLink(n, num, i)
  }

  /** The data TLBs; it fails, by a division by zero, exactly where there is no TLB to share. */
  method ConnectL1(n: nat, num: nat) returns (links: Option<seq<Link>>)
    requires n >= 1
    ensures links.None? <==> num == 0
    ensures links.Some? ==> NoClash(links.value)
    ensures links.Some? ==> forall k :: 0 <= k < |links.value| ==> links.value[k].coalescer < num
    ensures links.Some? ==> L1Links(links.value, n, num)
  {
    var per := num / n;
    assert per >= 1 <==> n <= num by { PerAtLeastOne(n, num); }
    if per >= 1 {
      var ls := ConnectPrivate(n, per);
      PrivateNoClash(ls, per);
      assert num == per * n + num % n && per * n == n * per;
      return Some(ls);
    }
    if num == 0 {
      return None;
    }
    var ls := ConnectShares(n, num);
    SharesNoClash(ls, n, num);
    return Some(ls);
  }

  lemma PerAtLeastOne(n: nat, num: nat)
    requires n >= 1
    ensures num / n >= 1 <==> n <= num
  {
    if num < n {
      DivModUnique(num, n, 0, num);
    } else {
      DivModUnique(n, n, 1, 0);
      DivMono(n, num, n);
    }
  }

  lemma PrivateNoClash(links: seq<Link>, per: nat)
    requires Private(links, per)
    ensures NoClash(links)
  {
  }

  lemma SharesNoClash(links: seq<Link>, n: nat, num: nat)
    requires n >= 1 && num >= 1 && |links| == n && forall i :: 0 <= i < n ==> links[i] == SharedLink(n, num, i)
    ensures NoClash(links) && forall k :: 0 <= k < n ==> links[k].coalescer < num
  {
    forall k | 0 <= k < n ensures links[k].coalescer < num {
      SharedInRange(n, num, k);
    }
    forall i, j | 0 <= i < j < n ensures links[i].coalescer != links[j].coalescer || links[i].slave != links[j].slave {
      if links[i].coalescer == links[j].coalescer {
        SharedApart(n, num, i, j);
      }
    }
  }

  // ---------- instruction and scalar TLBs ----------

  /** One TLB per group of `per` compute units, which take its ports in order. */
  method ConnectGrouped(n: nat, per: nat) returns (links: seq<Link>)
    requires n >= 1 && per >= 1
    ensures |links| == n && NoClash(links)
    ensures forall i :: 0 <= i < n ==> links[i].coalescer == Group(i, per) < Groups(n, per)
    ensures forall i :: 0 <= i < n ==> InGroup(links[i], i, per)
  {
    links := [];
    for i := 0 to n
      invariant |links| == i
      invariant forall j :: 0 <= j < i ==> links[j] == GroupLink(per, j)
    {
      links := links + [Link(i, 0, i / per, i % per)];
    }
    GroupedNoClash(links, n, per);
  }

  /** The only port of compute unit `i`, and its place among the units of its group. */
  ghost predicate InGroup(link: Link, i: nat, per: nat) {
    link.cu == i && link.port == 0 && link.coalescer * per + link.slave == i && link.slave < per
  }

  function GroupLink(per: nat, i: nat): Link
    requires per >= 1
  {
    Link(i, 0, i / per, i % per)
  }

  lemma GroupedNoClash(links: seq<Link>, n: nat, per: nat)
    requires per >= 1 && |links| == n && forall j :: 0 <= j < n ==> links[j] == GroupLink(per, j)
    ensures NoClash(links)
    ensures forall i :: 0 <= i < n ==> links[i].coalescer == Group(i, per) < Groups(n, per)
    ensures forall i :: 0 <= i < n ==> InGroup(links[i], i, per)
  {
    forall i | 0 <= i < n ensures links[i].coalescer == Group(i, per) < Groups(n, per) && InGroup(links[i], i, per) {
      GroupIsDiv(i, per);
      GroupInRange(i, n, per);
      assert i == i / per * per + i % per;
    }
    forall i, j | 0 <= i < j < n ensures links[i].coalescer != links[j].coalescer || links[i].slave != links[j].slave {
      assert i == i / per * per + i % per && j == j / per * per + j % per;
    }
  }

  // ---------- the whole hierarchy ----------

  datatype Tlbs = Tlbs(l1: seq<Link>, sqc: seq<Link>, scalar: seq<Link>)

  /**
   What each configuration means: sixty-four coalescers per compute unit, one per unit, one for all units, or one
   per two units.
   */
  ghost predicate Configured(config: TlbConfig, n: nat, links: seq<Link>) {
    match config
    case PerLane => |links| == 64 * n && forall k :: 0 <= k < |links| ==> links[k] == Link(k / 64, k % 64, k, 0)
    case PerCu => |links| == n && forall i :: 0 <= i < n ==> links[i] == Link(i, 0, i, 0)
    case Mono => |links| == n && forall i :: 0 <= i < n ==> links[i] == Link(i, 0, 0, i)
    case TwoCu => && |links| == n && n >= 2 && links[0].coalescer == 0 && links[n - 1].coalescer == n / 2 - 1
                  && (n % 2 == 0 ==> forall i :: 0 <= i < n ==> links[i] == Link(i, 0, i / 2, i % 2))
    case Unknown => false
  }

  lemma PrivateLinks(links: seq<Link>, per: nat)
    requires per >= 1 && Private(links, per)
    ensures forall k :: 0 <= k < |links| ==> links[k] == Link(k / per, k % per, k, 0)
  {
    forall k | 0 <= k < |links| ensures links[k] == Link(k / per, k % per, k, 0) {
      DivModUnique(k, per, links[k].cu, links[k].port);
    }
  }

  lemma SharedByAll(n: nat, cu: nat)
    requires cu < n
    ensures SharedLink(n, 1, cu) == Link(cu, 0, 0, cu)
  {
    DivModUnique(cu, n, 0, cu);
  }

  lemma SharedByTwo(half: nat, cu: nat)
    requires cu < 2 * half
    ensures SharedLink(2 * half, half, cu) == Link(cu, 0, cu / 2, cu % 2)
  {
    var q, r := cu / 2, cu % 2;
    assert cu * half == q * (2 * half) + r * half;
    DivModUnique(cu * half, 2 * half, q, r * half);
    DivModUnique(r * half, half, r, 0);
  }

  /** The first unit is on the first coalescer and the last unit on the last. */
  lemma SharedEnds(n: nat, num: nat)
    requires 1 <= num < n
    ensures SharedLink(n, num, 0).coalescer == 0 && SharedLink(n, num, n - 1).coalescer == num - 1
  {
    DivModUnique(0, n, 0, 0);
    assert (n - 1) * num == (num - 1) * n + (n - num);
    DivModUnique((n - 1) * num, n, num - 1, n - num);
  }

  lemma MonoMeans(n: nat, links: seq<Link>)
    requires n >= 1 && L1Links(links, n, 1)
    ensures Configured(Mono, n, links)
  {
    if n == 1 {
      PrivateLinks(links, 1);
    } else {
      forall i | 0 <= i < n ensures links[i] == Link(i, 0, 0, i) {
        SharedByAll(n, i);
      }
    }
  }

  lemma TwoCuMeans(n: nat, links: seq<Link>)
    requires n / 2 >= 1 && L1Links(links, n, n / 2)
    ensures Configured(TwoCu, n, links)
  {
    SharedEnds(n, n / 2);
    if n % 2 == 0 {
      forall i | 0 <= i < n ensures links[i] == Link(i, 0, i / 2, i % 2) {
        SharedByTwo(n / 2, i);
      }
    }
  }

  lemma ConfigMeans(config: TlbConfig, n: nat, links: seq<Link>)
    requires n >= 1 && config != Unknown && NumTlbs(config, n) >= 1 && L1Links(links, n, NumTlbs(config, n))
    ensures Configured(config, n, links)
  {
    match config {
      case PerLane =>
        DivModUnique(64 * n, n, 64, 0);
        PrivateLinks(links, 64);
      case PerCu =>
        DivModUnique(n, n, 1, 0);
        PrivateLinks(links, 1);
      case Mono =>
        MonoMeans(n, links);
      case TwoCu =>
        TwoCuMeans(n, links);
      case Unknown =>
    }
  }

  /** Translation agrees with the data path: a unit's coalescer has the number of its sequencer. */
  ghost predicate Agrees(g: Gpu, t: Tlbs, w: Wiring)
    requires g.Valid() && WiredRight(g, w)
  {
    && |t.sqc| == |t.scalar| == g.cus
    && (forall i :: 0 <= i < g.cus ==> w.sqc[i] == Sqc(t.sqc[i].coalescer))
    && (forall i :: 0 <= i < g.cus ==> w.scalar[i] == Scalar(t.scalar[i].coalescer))
  }

  /**
   Fails exactly for an unknown configuration and for one compute unit under the configuration with a TLB per
   two compute units.
   */
  method ConfigTlbs(config: TlbConfig, g: Gpu, ghost w: Wiring) returns (r: Option<Tlbs>)
    requires g.Valid() && WiredRight(g, w)
    ensures r.None? <==> config == Unknown || (config == TwoCu && g.cus == 1)
    ensures r.Some? ==>
      && NoClash(r.value.l1) && NoClash(r.value.sqc) && NoClash(r.value.scalar)
      && (forall k :: 0 <= k < |r.value.l1| ==> r.value.l1[k].coalescer < NumTlbs(config, g.cus))
      && Configured(config, g.cus, r.value.l1)
      && (forall i :: 0 <= i < |r.value.sqc| ==> InGroup(r.value.sqc[i], i, g.perSqc))
      && (forall i :: 0 <= i < |r.value.scalar| ==> InGroup(r.value.scalar[i], i, g.perScalar))
      && Agrees(g, r.value, w)
  {
    if config == Unknown {
      return None;
    }
    var l1 := ConnectL1(g.cus, NumTlbs(config, g.cus));
    if l1.None? {
      return None;
    }
    ConfigMeans(config, g.cus, l1.value);
    var sqc := ConnectGrouped(g.cus, g.perSqc);
    var scalar := ConnectGrouped(g.cus, g.perScalar);
    r := Some(Tlbs(l1.value, sqc, scalar));
  }
}
