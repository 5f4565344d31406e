/**
 The print queue of the pipeline viewer. Instructions arrive in retirement order; when more than
 `max` are held, the queue is sorted by sequence number and emptied down to `min`.
 */
module ReorderQueue {
  import opened StableSorting
  import opened Arith

  datatype Stage = Fetch | Decode | Rename | Dispatch | Issue | Complete | Retire | Store

  /** One instruction: sequence number, disassembly text and the tick of each stage (0: not reached). */
  datatype Inst = Inst(sn: int, disasm: string, ticks: map<Stage, int>) {
    function Tick(s: Stage): int {
      if s in ticks then ticks[s] else 0
    }
  }

  function Sn(i: Inst): int { i.sn }

  /** The part of the trace to be shown; a bound that is not positive is no bound. */
  datatype Window = Window(snStart: int, snStop: int, tickStart: int, tickStop: int, onlyCommitted: bool)

  predicate Shown(w: Window, i: Inst) {
    && !(w.snStart > 0 && i.sn < w.snStart)
    && !(w.snStop > 0 && i.sn > w.snStop)
    && !(w.tickStart > 0 && i.Tick(Fetch) < w.tickStart)
    && !(w.tickStop > 0 && i.Tick(Fetch) > w.tickStop)
    && !(w.onlyCommitted && i.Tick(Retire) == 0)
  }

  function Shows(w: Window): Inst -> bool {
    i => Shown(w, i)
  }

  // ---------- specification of the queue ----------

  /** What is still held, and everything taken out of the queue so far, in order. */
  datatype State = State(queue: seq<Inst>, drained: seq<Inst>)

  function Drain(st: State, lower: nat): (r: State)
    ensures |r.queue| + |r.drained| == |st.queue| + |st.drained|
  {
    var s := StableSort(st.queue, Sn);
    var k := if |s| > lower then |s| - lower else 0;
    State(s[k..], st.drained + s[..k])
  }

  function Feed(st: State, x: Inst, min: nat, max: nat): State {
    var st' := st.(queue := st.queue + [x]);
    if |st'.queue| > max then Drain(st', min) else st'
  }

  function Run(stream: seq<Inst>, min: nat, max: nat): State {
    if stream == [] then State([], [])
    else Feed(Run(stream[..|stream| - 1], min, max), stream[|stream| - 1], min, max)
  }

  /** The order in which a whole stream leaves the queue, the final flush included. */
  function Emitted(stream: seq<Inst>, min: nat, max: nat): seq<Inst> {
    Drain(Run(stream, min, max), 0).drained
  }

  lemma TakeDrop<T>(a: seq<T>, s: seq<T>, k: nat)
    requires k <= |s|
    ensures a + s[..k] + s[k..] == a + s
  {
  }

  /** The first `k` have moved from the front of `all` to the end of `before`. */
  ghost predicate Moved<T>(before: seq<T>, all: seq<T>, k: nat, from: seq<T>, to: seq<T>) {
    k <= |all| && from == all[k..] && to == before + all[..k]
  }

  lemma MoveOne<T>(before: seq<T>, all: seq<T>, k: nat, from: seq<T>, to: seq<T>)
    requires Moved(before, all, k, from, to) && from != []
    ensures Moved(before, all, k + 1, from[1..], to + [from[0]])
  {
    assert all[..k + 1] == all[..k] + [from[0]];
  }

  // ---------- the queue as the program keeps it ----------

  class PrintQueue {
    const min: nat
    const max: nat
    const window: Window
    var queue: seq<Inst>
    var output: seq<Inst>
    ghost var arrived: seq<Inst>
    ghost var drained: seq<Inst>

    ghost predicate Valid()
      reads this
    {
      && min <= max
      && Run(arrived, min, max) == State(queue, drained)
      && output == Filter(drained, Shows(window))
    }

    constructor (min: nat, max: nat, window: Window)
      requires min <= max
      ensures Valid() && arrived == [] && output == []
      ensures this.min == min && this.max == max && this.window == window
    {
      this.min, this.max, this.window := min, max, window;
      queue, output, arrived, drained := [], [], [], [];
    }

    /** Prints an instruction unless one of the bounds leaves it out. */
    method PrintIfShown(item: Inst)
      modifies this`output
      ensures output == if Shown(window, item) then old(output) + [item] else old(output)
    {
      if window.snStart > 0 && item.sn < window.snStart { return; }
      if window.snStop > 0 && item.sn > window.snStop { return; }
      if window.tickStart > 0 && item.Tick(Fetch) < window.tickStart { return; }
      if window.tickStop > 0 && item.Tick(Fetch) > window.tickStop { return; }
      if window.onlyCommitted && item.Tick(Retire) == 0 { return; }
      output := output + [item];
    }

    method PopFront()
      requires queue != [] && output == Filter(drained, Shows(window))
      modifies this`queue, this`drained, this`output
      ensures queue == old(queue)[1..] && drained == old(drained) + [old(queue)[0]]
      ensures output == Filter(drained, Shows(window))
    {
      FilterSnoc(drained, queue[0], Shows(window));
      var item := queue[0];
      queue, drained := queue[1..], drained + [item];
      PrintIfShown(item);
    }

    /** Prints from the front of the queue until `lower` instructions are left. */
    method PopDown(lower: nat)
      requires output == Filter(drained, Shows(window))
      modifies this`queue, this`drained, this`output
      ensures var s, k := old(queue), if |old(queue)| > lower then |old(queue)| - lower else 0;
              queue == s[k..] && drained == old(drained) + s[..k]
      ensures output == Filter(drained, Shows(window))
    {
      ghost var sorted, before, k := queue, drained, 0;
      while |queue| > lower
        invariant Moved(before, sorted, k, queue, drained)
        invariant k > 0 ==> |queue| >= lower
        invariant output == Filter(drained, Shows(window))
        decreases |queue|
      {
        MoveOne(before, sorted, k, queue, drained);
        PopFront();
        k := k + 1;
      }
    }

    /** Sorts the queue and prints from its front until `lower` instructions are left. */
    method PrintInsts(lower: nat)
      requires output == Filter(drained, Shows(window))
      modifies this`queue, this`drained, this`output
      ensures State(queue, drained) == Drain(old(State(queue, drained)), lower)
      ensures output == Filter(drained, Shows(window))
    {
      queue := StableSort(queue, Sn);
      PopDown(lower);
    }

    method QueueInst(inst: Inst)
      requires Valid()
      modifies this
      ensures Valid() && arrived == old(arrived) + [inst]
    {
      queue := queue + [inst];
      ghost var grown := State(queue, drained);
      if |queue| > max {
        PrintInsts(min);
      }
      arrived := arrived + [inst];
      assert arrived[..|arrived| - 1] == old(arrived);
    }

    /** The flush at the end of the trace: everything still held comes out. */
    method Flush()
      requires Valid()
      modifies this
      ensures queue == [] && arrived == old(arrived)
      ensures output == Filter(Emitted(arrived, min, max), Shows(window))
    {
      PrintInsts(0);
    }
  }

  // ---------- when the queue is emptied ----------

  /** How many instructions are held after `n` arrivals. */
  function Held(n: nat, min: nat, max: nat): (h: nat)
    requires min <= max
    ensures h <= max
  {
    if n == 0 then 0 else
    var h := Held(n - 1, min, max);
    if h + 1 > max then min else h + 1
  }

  /** The `t`-th arrival makes the queue overflow. */
  predicate IsDrain(t: int, min: nat, max: nat)
    requires min <= max
  {
    t > 0 && Held(t - 1, min, max) + 1 > max
  }

  lemma FeedLength(st: State, x: Inst, min: nat, max: nat)
    requires min <= max
    ensures var r := Feed(st, x, min, max);
            && |r.queue| + |r.drained| == |st.queue| + |st.drained| + 1
            && |r.queue| == (if |st.queue| + 1 > max then min else |st.queue| + 1)
            && st.drained <= r.drained
            && (|st.queue| + 1 <= max ==> r.drained == st.drained)
  {
  }

  lemma RunStep(stream: seq<Inst>, n: nat, min: nat, max: nat)
    requires 0 < n <= |stream|
    ensures Run(stream[..n], min, max) == Feed(Run(stream[..n - 1], min, max), stream[n - 1], min, max)
  {
    assert stream[..n][..n - 1] == stream[..n - 1];
  }

  lemma {:induction false} QueueLength(stream: seq<Inst>, min: nat, max: nat)
    requires min <= max
    ensures var st := Run(stream, min, max);
            |st.queue| == Held(|stream|, min, max) && |st.queue| + |st.drained| == |stream|
  {
    var n := |stream|;
    if n > 0 {
      QueueLength(stream[..n - 1], min, max);
      FeedLength(Run(stream[..n - 1], min, max), stream[n - 1], min, max);
    }
  }

  lemma FeedKeeps(st: State, x: Inst, min: nat, max: nat, r: State)
    requires |st.queue| < max && r == Feed(st, x, min, max)
    ensures r.drained == st.drained
  {
  }

  lemma NotFull(stream: seq<Inst>, n: nat, min: nat, max: nat)
    requires min <= max && 0 < n <= |stream| && !IsDrain(n, min, max)
    ensures |Run(stream[..n - 1], min, max).queue| < max
  {
    QueueLength(stream[..n - 1], min, max);
  }

  /** Between overflows nothing is taken out. */
  lemma NoDrainKeeps(stream: seq<Inst>, n: nat, min: nat, max: nat)
    requires min <= max && 0 < n <= |stream| && !IsDrain(n, min, max)
    ensures DrainedBy(stream, n, min, max) == DrainedBy(stream, n - 1, min, max)
  {
    var st, r := Run(stream[..n - 1], min, max), Run(stream[..n], min, max);
    RunStep(stream, n, min, max);
    NotFull(stream, n, min, max);
    FeedKeeps(st, stream[n - 1], min, max, r);
  }

  /** What has been taken out after `n` arrivals. */
  function DrainedBy(stream: seq<Inst>, n: nat, min: nat, max: nat): seq<Inst>
    requires n <= |stream|
  {
    Run(stream[..n], min, max).drained
  }

  /** What changes with overflows only, and has changed, was last changed by an overflow. */
  lemma {:induction false} LastChange<T>(values: seq<T>, n: nat, min: nat, max: nat) returns (t: nat)
    requires min <= max && n < |values| && values[n] != values[0]
    requires forall i {:trigger IsDrain(i, min, max)} ::
               0 < i <= n && !IsDrain(i, min, max) ==> values[i] == values[i - 1]
    ensures t <= n && IsDrain(t, min, max) && values[t] == values[n]
  {
    if IsDrain(n, min, max) {
      t := n;
    } else {
      t := LastChange(values, n - 1, min, max);
    }
  }

  /** The last overflow before the `n`-th arrival, if there was one: nothing has been taken out since. */
  lemma LastDrain(stream: seq<Inst>, n: nat, min: nat, max: nat) returns (t: nat)
    requires min <= max && n <= |stream| && DrainedBy(stream, n, min, max) != []
    ensures t <= n && IsDrain(t, min, max) && DrainedBy(stream, n, min, max) == DrainedBy(stream, t, min, max)
  {
    var values := seq(n + 1, i requires 0 <= i <= n => DrainedBy(stream, i, min, max));
    assert stream[..0] == [];
    forall i | 0 < i <= n && !IsDrain(i, min, max) ensures values[i] == values[i - 1] {
      NoDrainKeeps(stream, i, min, max);
    }
    t := LastChange(values, n, min, max);
  }

  /** Overflows come after `max + 1` arrivals and then once every `max + 1 - min`. */
  lemma {:induction false} DrainTimes(n: nat, min: nat, max: nat)
    requires min <= max
    ensures Held(n, min, max) == if n <= max then n else min + (n - max - 1) % (max + 1 - min)
    ensures IsDrain(n, min, max) <==> n > max && (n - max - 1) % (max + 1 - min) == 0
  {
    if n > 0 {
      DrainTimes(n - 1, min, max);
      if n - 1 > max {
        DivModStep(n - 1 - max - 1, max + 1 - min);
      } else if n - 1 == max {
        DivModUnique(0, max + 1 - min, 0, 0);
      }
    }
  }

  // ---------- the exact condition for ordered output ----------

  /** Once a drain has happened, no later instruction may have more than `min` of the earlier ones above it. */
  ghost predicate Orderly(stream: seq<Inst>, min: nat, max: nat)
    requires min <= max
  {
    forall t, j :: IsDrain(t, min, max) && t <= j < |stream|
                   ==> CountAbove(stream[..t], stream[j].sn, Sn) <= min
  }

  lemma OrderlyPrefix(stream: seq<Inst>, n: nat, min: nat, max: nat)
    requires min <= max && n <= |stream| && Orderly(stream, min, max)
    ensures Orderly(stream[..n], min, max)
  {
    forall t, j | IsDrain(t, min, max) && t <= j < n
      ensures CountAbove(stream[..n][..t], stream[..n][j].sn, Sn) <= min
    {
      assert stream[..n][..t] == stream[..t];
    }
  }

  /** From an element above `v` on, everything in a sorted sequence is above `v`. */
  lemma TailAbove(s: seq<Inst>, i: nat, v: int)
    requires Sorted(s, Sn) && i < |s| && s[i].sn > v
    ensures CountAbove(s, v, Sn) >= |s| - i
  {
    forall k | i <= k < |s| ensures Sn(s[k]) > v {
      assert i < k ==> Sn(s[i]) <= Sn(s[k]);
    }
    CountAboveAll(s[i..], v, Sn);
    CountAboveConcat(s[..i], s[i..], v, Sn);
    assert s == s[..i] + s[i..];
  }

  /** A drained instruction below which a newcomer falls puts all that was held above the newcomer too. */
  lemma NewcomerAboveDrained(prefix: seq<Inst>, d: seq<Inst>, q: seq<Inst>, v: int)
    requires StableSort(prefix, Sn) == d + q
    requires CountAbove(prefix, v, Sn) <= |q|
    ensures forall y :: y in d ==> y.sn <= v
  {
    SortSorted(prefix, Sn);
    SortCountAbove(prefix, v, Sn);
    forall i | 0 <= i < |d| ensures d[i].sn <= v {
      if d[i].sn > v {
        TailAbove(d + q, i, v);
      }
    }
  }

  lemma {:induction false} Reassembled(stream: seq<Inst>, min: nat, max: nat, r: State)
    requires min <= max && Orderly(stream, min, max) && r == Run(stream, min, max)
    ensures r.drained + StableSort(r.queue, Sn) == StableSort(stream, Sn)
    decreases |stream|, 1
  {
    var n := |stream| - 1;
    if n >= 0 {
      var st := Run(stream[..n], min, max);
      OrderlyPrefix(stream, n, min, max);
      Reassembled(stream[..n], min, max, st);
      DrainedBelow(stream, min, max, st);
      FeedReassembles(stream, st, min, max, r);
    }
  }

  lemma FeedReassembles(stream: seq<Inst>, st: State, min: nat, max: nat, r: State)
    requires stream != [] && r == Feed(st, stream[|stream| - 1], min, max)
    requires st.drained + StableSort(st.queue, Sn) == StableSort(stream[..|stream| - 1], Sn)
    requires forall y :: y in st.drained ==> y.sn <= stream[|stream| - 1].sn
    ensures r.drained + StableSort(r.queue, Sn) == StableSort(stream, Sn)
  {
    FeedRejoins(st, stream[|stream| - 1], min, max);
  }

  lemma FeedRejoins(st: State, x: Inst, min: nat, max: nat)
    requires forall y :: y in st.drained ==> y.sn <= x.sn
    ensures var r := Feed(st, x, min, max);
            r.drained + StableSort(r.queue, Sn) == Insert(st.drained + StableSort(st.queue, Sn), x, Sn)
  {
    SortSnoc(st.queue, x, Sn);
    InsertBehind(st.drained, StableSort(st.queue, Sn), x, Sn);
    DrainRejoins(st.(queue := st.queue + [x]), min);
  }

  lemma DrainedBelow(stream: seq<Inst>, min: nat, max: nat, st: State)
    requires min <= max && Orderly(stream, min, max) && stream != []
    requires st == Run(stream[..|stream| - 1], min, max)
    ensures forall y :: y in st.drained ==> y.sn <= stream[|stream| - 1].sn
    decreases |stream|, 0
  {
    var n := |stream| - 1;
    if st.drained != [] {
      var t := LastDrain(stream, n, min, max);
      DrainedAtOverflow(stream, t, n, min, max, Run(stream[..t], min, max));
    }
  }

  lemma DrainedAtOverflow(stream: seq<Inst>, t: nat, j: nat, min: nat, max: nat, st: State)
    requires min <= max && Orderly(stream, min, max) && IsDrain(t, min, max) && t <= j < |stream|
    requires st == Run(stream[..t], min, max)
    ensures forall y :: y in st.drained ==> y.sn <= stream[j].sn
    decreases t, 2
  {
    OrderlyPrefix(stream, t, min, max);
    Reassembled(stream[..t], min, max, st);
    QueueLength(stream[..t], min, max);
    NewcomerAboveDrained(stream[..t], st.drained, StableSort(st.queue, Sn), stream[j].sn);
  }

  lemma Rejoin(d: seq<Inst>, s: seq<Inst>, k: nat)
    requires Sorted(s, Sn) && k <= |s|
    ensures d + s[..k] + StableSort(s[k..], Sn) == d + s
  {
    SortFixesSorted(s[k..], Sn);
    TakeDrop(d, s, k);
  }

  lemma DrainRejoins(st: State, lower: nat)
    ensures var r := Drain(st, lower);
            r.drained + StableSort(r.queue, Sn) == st.drained + StableSort(st.queue, Sn)
  {
    var s := StableSort(st.queue, Sn);
    SortSorted(st.queue, Sn);
    Rejoin(st.drained, s, if |s| > lower then |s| - lower else 0);
  }

  // ---------- what leaves the queue, order aside ----------

  lemma DrainCount(st: State, lower: nat, v: int)
    ensures var r := Drain(st, lower);
            CountAbove(r.drained, v, Sn) + CountAbove(r.queue, v, Sn)
            == CountAbove(st.drained, v, Sn) + CountAbove(st.queue, v, Sn)
  {
    var s := StableSort(st.queue, Sn);
    SortCountAbove(st.queue, v, Sn);
    CountMoved(st.drained, s, if |s| > lower then |s| - lower else 0, v);
  }

  lemma CountMoved(d: seq<Inst>, s: seq<Inst>, k: nat, v: int)
    requires k <= |s|
    ensures CountAbove(d + s[..k], v, Sn) + CountAbove(s[k..], v, Sn) == CountAbove(d, v, Sn) + CountAbove(s, v, Sn)
  {
    CountAboveConcat(s[..k], s[k..], v, Sn);
    assert s == s[..k] + s[k..];
    CountAboveConcat(d, s[..k], v, Sn);
  }

  lemma FeedCount(st: State, x: Inst, min: nat, max: nat, v: int)
    ensures var r := Feed(st, x, min, max);
            CountAbove(r.drained, v, Sn) + CountAbove(r.queue, v, Sn)
            == CountAbove(st.drained, v, Sn) + CountAbove(st.queue, v, Sn) + CountAbove([x], v, Sn)
  {
    CountAboveConcat(st.queue, [x], v, Sn);
    DrainCount(st.(queue := st.queue + [x]), min, v);
  }

  lemma CountSnoc(s: seq<Inst>, v: int)
    requires s != []
    ensures CountAbove(s, v, Sn) == CountAbove(s[..|s| - 1], v, Sn) + CountAbove([s[|s| - 1]], v, Sn)
  {
    CountAboveConcat(s[..|s| - 1], [s[|s| - 1]], v, Sn);
    assert s == s[..|s| - 1] + [s[|s| - 1]];
  }

  lemma {:induction false} RunCount(stream: seq<Inst>, min: nat, max: nat, v: int)
    ensures var st := Run(stream, min, max);
            CountAbove(st.drained, v, Sn) + CountAbove(st.queue, v, Sn) == CountAbove(stream, v, Sn)
  {
    if stream != [] {
      var n := |stream| - 1;
      RunCount(stream[..n], min, max, v);
      FeedCount(Run(stream[..n], min, max), stream[n], min, max, v);
      CountSnoc(stream, v);
    }
  }

  /** What comes out behind the first `m` drained instructions: the later ones, and all that is still held. */
  function Behind(st: State, m: nat): seq<Inst> {
    if m <= |st.drained| then st.drained[m..] + st.queue else []
  }

  lemma DrainKeepsBehind(st: State, lower: nat, m: nat, x: Inst)
    requires x in Behind(st, m)
    ensures x in Behind(Drain(st, lower), m)
  {
    var s := StableSort(st.queue, Sn);
    var k := if |s| > lower then |s| - lower else 0;
    SortMembers(st.queue, Sn);
    DropTaken(st.drained, s, m, k);
  }

  lemma DropTaken<T>(d: seq<T>, s: seq<T>, m: nat, k: nat)
    requires m <= |d| && k <= |s|
    ensures (d + s[..k])[m..] + s[k..] == d[m..] + s
  {
  }

  lemma FeedKeepsBehind(st: State, y: Inst, min: nat, max: nat, m: nat, x: Inst)
    requires x in Behind(st, m)
    ensures x in Behind(Feed(st, y, min, max), m)
  {
    assert x in Behind(st.(queue := st.queue + [y]), m);
    DrainKeepsBehind(st.(queue := st.queue + [y]), min, m, x);
  }

  lemma FeedAddsBehind(st: State, y: Inst, min: nat, max: nat, m: nat)
    requires m <= |st.drained|
    ensures y in Behind(Feed(st, y, min, max), m)
  {
    assert y in Behind(st.(queue := st.queue + [y]), m);
    DrainKeepsBehind(st.(queue := st.queue + [y]), min, m, y);
  }

  lemma FeedGrows(st: State, x: Inst, min: nat, max: nat)
    ensures st.drained <= Feed(st, x, min, max).drained
  {
  }

  /** The queue from a given state on, over the rest of a stream. */
  function RunFrom(st: State, rest: seq<Inst>, min: nat, max: nat): State
    decreases |rest|
  {
    if rest == [] then st else RunFrom(Feed(st, rest[0], min, max), rest[1..], min, max)
  }

  lemma {:induction false} RunSplit(stream: seq<Inst>, t: nat, min: nat, max: nat)
    requires t <= |stream|
    ensures Run(stream, min, max) == RunFrom(Run(stream[..t], min, max), stream[t..], min, max)
    decreases |stream| - t
  {
    if t == |stream| {
      assert stream[..t] == stream;
    } else {
      RunSplit(stream, t + 1, min, max);
      RunStep(stream, t + 1, min, max);
      assert stream[t..][0] == stream[t] && stream[t..][1..] == stream[t + 1..];
    }
  }

  /** What has been taken out stays in front. */
  lemma {:induction false} RunFromGrows(st: State, rest: seq<Inst>, min: nat, max: nat)
    ensures st.drained <= RunFrom(st, rest, min, max).drained
    decreases |rest|
  {
    if rest != [] {
      FeedGrows(st, rest[0], min, max);
      RunFromGrows(Feed(st, rest[0], min, max), rest[1..], min, max);
    }
  }

  lemma {:induction false} RunFromKeepsBehind(st: State, rest: seq<Inst>, min: nat, max: nat, m: nat, x: Inst)
    requires x in Behind(st, m)
    ensures x in Behind(RunFrom(st, rest, min, max), m)
    decreases |rest|
  {
    if rest != [] {
      FeedKeepsBehind(st, rest[0], min, max, m, x);
      RunFromKeepsBehind(Feed(st, rest[0], min, max), rest[1..], min, max, m, x);
    }
  }

  /** Whatever arrives later is held, or taken out behind the first `m`. */
  lemma {:induction false} LaterComesBehind(st: State, rest: seq<Inst>, j: nat, min: nat, max: nat, m: nat)
    requires j < |rest| && m <= |st.drained|
    ensures rest[j] in Behind(RunFrom(st, rest, min, max), m)
    decreases |rest|
  {
    var next := Feed(st, rest[0], min, max);
    if j == 0 {
      FeedAddsBehind(st, rest[0], min, max, m);
      RunFromKeepsBehind(next, rest[1..], min, max, m, rest[0]);
    } else {
      FeedGrows(st, rest[0], min, max);
      LaterComesBehind(next, rest[1..], j - 1, min, max, m);
    }
  }

  /** A later arrival is emitted behind everything drained before it arrived. */
  lemma LaterEmitted(stream: seq<Inst>, t: nat, j: nat, min: nat, max: nat, st: State, full: State)
    returns (out: seq<Inst>, k: nat)
    requires t <= j < |stream| && st == Run(stream[..t], min, max) && full == Run(stream, min, max)
    ensures out == Drain(full, 0).drained
    ensures st.drained <= out && |st.drained| <= k < |out| && out[k] == stream[j]
  {
    RunSplit(stream, t, min, max);
    out, k := EmittedAfter(stream, t, j, min, max, st, full);
  }

  lemma EmittedAfter(stream: seq<Inst>, t: nat, j: nat, min: nat, max: nat, st: State, full: State)
    returns (out: seq<Inst>, k: nat)
    requires t <= j < |stream| && full == RunFrom(st, stream[t..], min, max)
    ensures out == Drain(full, 0).drained
    ensures st.drained <= out && |st.drained| <= k < |out| && out[k] == stream[j]
  {
    assert stream[t..][j - t] == stream[j];
    out, k := EmittedFrom(st, stream[t..], j - t, min, max, full, stream[j]);
  }

  lemma EmittedFrom(st: State, rest: seq<Inst>, j: nat, min: nat, max: nat, full: State, x: Inst)
    returns (out: seq<Inst>, k: nat)
    requires j < |rest| && x == rest[j] && full == RunFrom(st, rest, min, max)
    ensures out == Drain(full, 0).drained
    ensures st.drained <= out && |st.drained| <= k < |out| && out[k] == x
  {
    RunFromGrows(st, rest, min, max);
    LaterComesBehind(st, rest, j, min, max, |st.drained|);
    DrainKeepsBehind(full, 0, |st.drained|, rest[j]);
    out := Drain(full, 0).drained;
    k := FoundBehind(Drain(full, 0), |st.drained|, rest[j]);
  }

  lemma FoundBehind(st: State, m: nat, x: Inst) returns (k: nat)
    requires st.queue == [] && x in Behind(st, m)
    ensures m <= k < |st.drained| && st.drained[k] == x
  {
    assert Behind(st, m) == st.drained[m..];
    var i :| 0 <= i < |st.drained[m..]| && st.drained[m..][i] == x;
    k := m + i;
  }

  lemma DisorderShows(stream: seq<Inst>, t: nat, j: nat, min: nat, max: nat)
    requires min <= max && IsDrain(t, min, max) && t <= j < |stream|
    requires CountAbove(stream[..t], stream[j].sn, Sn) > min
    ensures !Sorted(Emitted(stream, min, max), Sn)
  {
    var v, st := stream[j].sn, Run(stream[..t], min, max);
    QueueLength(stream[..t], min, max);
    RunCount(stream[..t], min, max, v);
    var i := CountAboveWitness(st.drained, v, Sn);
    var out, k := LaterEmitted(stream, t, j, min, max, st, Run(stream, min, max));
    assert out[i] == st.drained[i];
    assert Sn(out[i]) > Sn(out[k]);
  }

  // ---------- main results ----------

  /**
   Exactly when the bounded queue is as good as sorting the whole trace: its output is ordered at all
   if and only if it is the stable sort of the stream, if and only if the stream is `Orderly`.
   */
  lemma ReorderExact(stream: seq<Inst>, min: nat, max: nat)
    requires min <= max
    ensures Orderly(stream, min, max) <==> Emitted(stream, min, max) == StableSort(stream, Sn)
    ensures Orderly(stream, min, max) <==> Sorted(Emitted(stream, min, max), Sn)
  {
    SortSorted(stream, Sn);
    if Orderly(stream, min, max) {
      Reassembled(stream, min, max, Run(stream, min, max));
      DrainRejoins(Run(stream, min, max), 0);
    } else {
      var t, j :| IsDrain(t, min, max) && t <= j < |stream| && CountAbove(stream[..t], stream[j].sn, Sn) > min;
      DisorderShows(stream, t, j, min, max);
    }
  }

  /** No instruction has more than `places` earlier ones with a larger sequence number. */
  ghost predicate Displaced(stream: seq<Inst>, places: nat) {
    forall j :: 0 <= j < |stream| ==> CountAbove(stream[..j], stream[j].sn, Sn) <= places
  }

  lemma DisplacedIsOrderly(stream: seq<Inst>, min: nat, max: nat)
    requires min <= max && Displaced(stream, min)
    ensures Orderly(stream, min, max)
  {
    forall t, j | IsDrain(t, min, max) && t <= j < |stream|
      ensures CountAbove(stream[..t], stream[j].sn, Sn) <= min
    {
      CountInPrefix(stream, t, j, stream[j].sn);
    }
  }

  lemma CountInPrefix(stream: seq<Inst>, t: nat, j: nat, v: int)
    requires t <= j <= |stream|
    ensures CountAbove(stream[..t], v, Sn) <= CountAbove(stream[..j], v, Sn)
  {
    CountAboveConcat(stream[..t], stream[t..j], v, Sn);
    assert stream[..j] == stream[..t] + stream[t..j];
  }

  /** The documented assumption suffices, for every pair of thresholds, and the shown part is then exact. */
  lemma BoundedDisplacementSorts(stream: seq<Inst>, min: nat, max: nat, w: Window)
    requires min <= max && Displaced(stream, min)
    ensures Filter(Emitted(stream, min, max), Shows(w)) == Filter(StableSort(stream, Sn), Shows(w))
  {
    DisplacedIsOrderly(stream, min, max);
    ReorderExact(stream, min, max);
  }

  /** An increasing stream of `max + 1` instructions and then one that belongs just below the last `min + 1`. */
  function Straggler(min: nat, max: nat): seq<Inst>
    requires min <= max
  {
    seq(max + 1, i => Inst(2 * i, "", map[])) + [Inst(2 * (max - min) - 1, "", map[])]
  }

  /** One place more than `min` is already too much, whatever the thresholds. */
  lemma BoundIsTight(min: nat, max: nat)
    requires min <= max
    ensures Displaced(Straggler(min, max), min + 1)
    ensures !Sorted(Emitted(Straggler(min, max), min, max), Sn)
  {
    StragglerCount(min, max);
    var s := Straggler(min, max);
    forall j | 0 <= j < |s|
      ensures CountAbove(s[..j], s[j].sn, Sn) <= min + 1
    {
      if j <= max {
        CountAboveNone(s[..j], s[j].sn);
      }
    }
    DrainTimes(max + 1, min, max);
    DivModUnique(0, max + 1 - min, 0, 0);
    DisorderShows(s, max + 1, max + 1, min, max);
  }

  lemma StragglerCount(min: nat, max: nat)
    requires min <= max
    ensures CountAbove(Straggler(min, max)[..max + 1], Straggler(min, max)[max + 1].sn, Sn) == min + 1
  {
    var s, m := Straggler(min, max), max - min;
    var v := s[max + 1].sn;
    assert s[..max + 1] == s[..m] + s[m..max + 1];
    CountAboveConcat(s[..m], s[m..max + 1], v, Sn);
    CountAboveAll(s[m..max + 1], v, Sn);
    CountAboveNone(s[..m], v);
  }

  lemma {:induction false} CountAboveNone(s: seq<Inst>, v: int)
    requires forall i :: 0 <= i < |s| ==> s[i].sn <= v
    ensures CountAbove(s, v, Sn) == 0
  {
    if s != [] {
      CountAboveNone(s[..|s| - 1], v);
    }
  }
}
