/**
 The pipeline viewer's pass over a trace: skip to the region of interest, collect one instruction
 per retire line, stop early behind the region, and print through the bounded queue.
 */
module PipeTrace {
  import opened StableSorting
  import opened ReorderQueue

  type MiddleStage = s: Stage | s in {Decode, Rename, Dispatch, Issue, Complete} witness Decode

  /** The stages every instruction must report before it retires. */
  const BEFORE_RETIRE: set<Stage> := {Fetch, Decode, Rename, Dispatch, Issue, Complete}

  /** A line of the trace, split into its fields; `OtherLine` is a line of another debug flag. */
  datatype Line =
    | FetchLine(tick: int, sn: int, disasm: string)
    | StageLine(stage: MiddleStage, tick: int)
    | RetireLine(tick: int, storeTick: int)
    | OtherLine

  datatype Config = Config(window: Window, storeCompletions: bool, min: nat, max: nat, drift: nat)

  const BLANK: Inst := Inst(0, "", map[])

  // ---------- what the lines say ----------

  /** The record under construction after one more line. */
  function Update(curr: Inst, line: Line, sc: bool): Inst {
    match line
    case FetchLine(t, sn, d) => Inst(sn, d, curr.ticks[Fetch := t])
    case StageLine(s, t) => curr.(ticks := curr.ticks[s := t])
    case RetireLine(t, st) =>
      var ticks := curr.ticks[Retire := t];
      Inst(curr.sn, if t == 0 then "-----" + curr.disasm else curr.disasm, if sc then ticks[Store := st] else ticks)
    case OtherLine => curr
  }

  function After(lines: seq<Line>, curr: Inst, sc: bool): Inst {
    if lines == [] then curr else After(lines[1..], Update(curr, lines[0], sc), sc)
  }

  /** Every instruction the lines describe, in retirement order. */
  function Collect(lines: seq<Line>, curr: Inst, sc: bool): seq<Inst> {
    if lines == [] then []
    else
      var c := Update(curr, lines[0], sc);
      (if lines[0].RetireLine? then [c] else []) + Collect(lines[1..], c, sc)
  }

  /** The first index from `i` on whose line satisfies `p`, or the number of lines. */
  function FirstFrom(lines: seq<Line>, i: nat, p: Line -> bool): (k: nat)
    requires i <= |lines|
    ensures i <= k <= |lines|
    ensures forall j :: i <= j < k ==> !p(lines[j])
    ensures k < |lines| ==> p(lines[k])
    decreases |lines| - i
  {
    if i == |lines| || p(lines[i]) then i else FirstFrom(lines, i + 1, p)
  }

  function InRegion(cfg: Config): Line -> bool {
    (line: Line) =>
      if cfg.window.tickStart != 0 then !line.OtherLine? && line.tick >= cfg.window.tickStart
      else if cfg.window.snStart != 0 then line.FetchLine? && line.sn >= cfg.window.snStart
      else true
  }

  function IsFetch(): Line -> bool {
    (line: Line) => line.FetchLine?
  }

  function BehindRegion(cfg: Config): Line -> bool {
    (line: Line) => line.FetchLine? &&
            ((cfg.window.tickStop > 0 && line.tick > cfg.window.tickStop + cfg.drift) ||
             (cfg.window.snStop > 0 && line.sn > cfg.window.snStop + cfg.max))
  }

  function Start(lines: seq<Line>, cfg: Config): (k: nat)
    ensures k <= |lines|
  {
    FirstFrom(lines, FirstFrom(lines, 0, InRegion(cfg)), IsFetch())
  }

  /** The instructions that are put into the print queue. */
  function Queued(lines: seq<Line>, cfg: Config): seq<Inst> {
    var start := Start(lines, cfg);
    Collect(lines[start..FirstFrom(lines, start, BehindRegion(cfg))], BLANK, cfg.storeCompletions)
  }

  // ---------- the pass itself ----------

  /** Reads until a line satisfies the start condition. */
  method SkipToRegion(lines: seq<Line>, cfg: Config) returns (i: nat)
    ensures i == FirstFrom(lines, 0, InRegion(cfg))
  {
    i := 0;
    ghost var found := FirstFrom(lines, 0, InRegion(cfg));
    if cfg.window.tickStart != 0 {
      while i < |lines|
        invariant i <= |lines| && FirstFrom(lines, i, InRegion(cfg)) == found
      {
        if !lines[i].OtherLine? && lines[i].tick >= cfg.window.tickStart { break; }
        i := i + 1;
      }
    } else if cfg.window.snStart != 0 {
      while i < |lines|
        invariant i <= |lines| && FirstFrom(lines, i, InRegion(cfg)) == found
      {
        if lines[i].FetchLine? && lines[i].sn >= cfg.window.snStart { break; }
        i := i + 1;
      }
    }
  }

  /** One line of the trace: the record is updated, and queued if the line is a retire line. */
  method TakeLine(q: PrintQueue, line: Line, curr: Inst, sc: bool) returns (next: Inst)
    requires q.Valid()
    modifies q
    ensures q.Valid() && next == Update(curr, line, sc)
    ensures q.arrived == if line.RetireLine? then old(q.arrived) + [next] else old(q.arrived)
  {
    next := Update(curr, line, sc);
    if line.RetireLine? {
      q.QueueInst(next);
    }
  }

  /** The next line of the region: what is queued and what is still to come stay the same together. */
  method TakeNext(q: PrintQueue, lines: seq<Line>, i: nat, ghost stop: nat, curr: Inst, sc: bool) returns (next: Inst)
    requires q.Valid() && i < stop <= |lines|
    modifies q
    ensures q.Valid()
    ensures q.arrived + Collect(lines[i + 1..stop], next, sc) == old(q.arrived) + Collect(lines[i..stop], curr, sc)
  {
    CollectStep(lines, i, stop, q.arrived, curr, sc);
    next := TakeLine(q, lines[i], curr, sc);
  }

  /** The region of interest: one queued instruction per retire line, until the stop condition. */
  method QueueRegion(q: PrintQueue, lines: seq<Line>, start: nat, cfg: Config)
    requires q.Valid() && q.arrived == [] && start <= |lines|
    modifies q
    ensures q.Valid()
    ensures q.arrived == Collect(lines[start..FirstFrom(lines, start, BehindRegion(cfg))], BLANK, cfg.storeCompletions)
  {
    var sc := cfg.storeCompletions;
    var curr, i := BLANK, start;
    ghost var stop := FirstFrom(lines, start, BehindRegion(cfg));
    ghost var all := Collect(lines[start..stop], BLANK, sc);
    while i < |lines|
      invariant start <= i <= stop <= |lines|
      invariant FirstFrom(lines, i, BehindRegion(cfg)) == stop
      invariant q.Valid()
      invariant q.arrived + Collect(lines[i..stop], curr, sc) == all
    {
      var line := lines[i];
      if line.FetchLine? &&
         ((cfg.window.tickStop > 0 && line.tick > cfg.window.tickStop + cfg.drift) ||
          (cfg.window.snStop > 0 && line.sn > cfg.window.snStop + cfg.max))
      {
        break;
      }
      curr := TakeNext(q, lines, i, stop, curr, sc);
      i := i + 1;
    }
    assert lines[i..stop] == [];
  }

  /** Queues the region of interest, and prints what is left in the queue at the end. */
  method PrintRegion(lines: seq<Line>, start: nat, cfg: Config) returns (output: seq<Inst>)
    requires cfg.min <= cfg.max && start <= |lines|
    ensures var stop := FirstFrom(lines, start, BehindRegion(cfg));
            output == Filter(Emitted(Collect(lines[start..stop], BLANK, cfg.storeCompletions), cfg.min, cfg.max),
                             Shows(cfg.window))
  {
    var q := new PrintQueue(cfg.min, cfg.max, cfg.window);
    QueueRegion(q, lines, start, cfg);
    q.Flush();
    output := q.output;
  }

  method ProcessTrace(lines: seq<Line>, cfg: Config) returns (output: seq<Inst>)
    requires cfg.min <= cfg.max
    ensures output == Filter(Emitted(Queued(lines, cfg), cfg.min, cfg.max), Shows(cfg.window))
  {
    var i := SkipToRegion(lines, cfg);
    ghost var start := Start(lines, cfg);
    while i < |lines| && !lines[i].FetchLine?
      invariant i <= |lines| && FirstFrom(lines, i, IsFetch()) == start
    {
      i := i + 1;
    }
    output := PrintRegion(lines, i, cfg);
  }

  lemma CollectStep(lines: seq<Line>, i: nat, stop: nat, a: seq<Inst>, curr: Inst, sc: bool)
    requires i < stop <= |lines|
    ensures var c := Update(curr, lines[i], sc);
            a + Collect(lines[i..stop], curr, sc)
            == (if lines[i].RetireLine? then a + [c] else a) + Collect(lines[i + 1..stop], c, sc)
  {
    assert lines[i..stop][1..] == lines[i + 1..stop];
  }

  // ---------- traces with whole instructions ----------

  function SeenNext(line: Line, seen: set<Stage>): set<Stage> {
    match line
    case FetchLine(_, _, _) => {Fetch}
    case StageLine(s, _) => seen + {s}
    case RetireLine(_, _) => {}
    case OtherLine => seen
  }

  /** Between a fetch and the retire that follows it, every stage in between has reported. */
  predicate WholeGroups(lines: seq<Line>, seen: set<Stage>) {
    lines == [] ||
    ((lines[0].RetireLine? ==> BEFORE_RETIRE <= seen) && WholeGroups(lines[1..], SeenNext(lines[0], seen)))
  }

  function SeenAfter(lines: seq<Line>, seen: set<Stage>): set<Stage> {
    if lines == [] then seen else SeenAfter(lines[1..], SeenNext(lines[0], seen))
  }

  lemma {:induction false} SplitGroups(a: seq<Line>, b: seq<Line>, seen: set<Stage>)
    requires WholeGroups(a + b, seen)
    ensures WholeGroups(a, seen) && WholeGroups(b, SeenAfter(a, seen))
  {
    if a == [] {
      assert a + b == b;
    } else {
      assert (a + b)[1..] == a[1..] + b;
      SplitGroups(a[1..], b, SeenNext(a[0], seen));
    }
  }

  lemma {:induction false} SplitCollect(a: seq<Line>, b: seq<Line>, curr: Inst, sc: bool)
    ensures Collect(a + b, curr, sc) == Collect(a, curr, sc) + Collect(b, After(a, curr, sc), sc)
  {
    if a == [] {
      assert a + b == b;
    } else {
      assert (a + b)[1..] == a[1..] + b;
      SplitCollect(a[1..], b, Update(curr, a[0], sc), sc);
    }
  }

  /** The two records agree on all that the current group has reported. */
  predicate Agree(c: Inst, d: Inst, seen: set<Stage>, sc: bool) {
    && (forall s :: s in seen ==> s in c.ticks && s in d.ticks && c.ticks[s] == d.ticks[s])
    && (Fetch in seen ==> c.sn == d.sn && c.disasm == d.disasm)
    && (!sc ==> Store !in c.ticks && Store !in d.ticks)
  }

  lemma AgreeAtRetire(c: Inst, d: Inst, t: int, st: int, seen: set<Stage>, sc: bool)
    requires BEFORE_RETIRE <= seen && Agree(c, d, seen, sc)
    ensures Update(c, RetireLine(t, st), sc) == Update(d, RetireLine(t, st), sc)
  {
    var c', d' := Update(c, RetireLine(t, st), sc), Update(d, RetireLine(t, st), sc);
    forall s: Stage
      ensures s in c'.ticks <==> s in d'.ticks
      ensures s in c'.ticks ==> c'.ticks[s] == d'.ticks[s]
    {
      if s != Retire && s != Store {
        assert s in BEFORE_RETIRE;
      }
    }
    assert c'.ticks == d'.ticks;
  }

  /** Nothing left over from before a group's fetch line shows in what is collected. */
  lemma {:induction false} CollectForgets(lines: seq<Line>, c: Inst, d: Inst, seen: set<Stage>, sc: bool)
    requires WholeGroups(lines, seen) && Agree(c, d, seen, sc)
    ensures Collect(lines, c, sc) == Collect(lines, d, sc)
  {
    if lines != [] {
      var c', d' := Update(c, lines[0], sc), Update(d, lines[0], sc);
      if lines[0].RetireLine? {
        AgreeAtRetire(c, d, lines[0].tick, lines[0].storeTick, seen, sc);
      }
      CollectForgets(lines[1..], c', d', SeenNext(lines[0], seen), sc);
    }
  }

  lemma {:induction false} NoStrayStore(lines: seq<Line>, curr: Inst)
    requires Store !in curr.ticks
    ensures Store !in After(lines, curr, false).ticks
  {
    if lines != [] {
      NoStrayStore(lines[1..], Update(curr, lines[0], false));
    }
  }

  /** What holds of every fetch line holds of every collected instruction. */
  lemma {:induction false} CollectedFetches(lines: seq<Line>, curr: Inst, seen: set<Stage>, sc: bool,
                                            bad: (int, int) -> bool)
    requires WholeGroups(lines, seen)
    requires forall j :: 0 <= j < |lines| && lines[j].FetchLine? ==> bad(lines[j].tick, lines[j].sn)
    requires Fetch in seen ==> Fetch in curr.ticks && bad(curr.ticks[Fetch], curr.sn)
    ensures forall x :: x in Collect(lines, curr, sc) ==> bad(x.Tick(Fetch), x.sn)
  {
    if lines != [] {
      CollectedFetches(lines[1..], Update(curr, lines[0], sc), SeenNext(lines[0], seen), sc, bad);
    }
  }

  // ---------- end to end ----------

  /** Fetches are out of order by at most `drift` ticks and `max` sequence numbers. */
  ghost predicate BoundedDrift(lines: seq<Line>, cfg: Config) {
    forall p, q :: 0 <= p < q < |lines| && lines[p].FetchLine? && lines[q].FetchLine? ==>
      && lines[p].tick <= lines[q].tick + cfg.drift
      && lines[p].sn <= lines[q].sn + cfg.max
  }

  lemma HeadNotShown(lines: seq<Line>, cfg: Config)
    requires cfg.window.tickStart >= 0 && cfg.window.snStart >= 0
    requires WholeGroups(lines, {})
    ensures var head := Collect(lines[..Start(lines, cfg)], BLANK, cfg.storeCompletions);
            Filter(head, Shows(cfg.window)) == []
  {
    var w, start := cfg.window, Start(lines, cfg);
    assert lines == lines[..start] + lines[start..];
    SplitGroups(lines[..start], lines[start..], {});
    FetchesBefore(lines, cfg);
    CollectedFetches(lines[..start], BLANK, {}, cfg.storeCompletions, Before(w));
    NoneShown(Collect(lines[..start], BLANK, cfg.storeCompletions), w, Before(w));
  }

  /** A fetch with this tick and sequence number comes before the region. */
  function Before(w: Window): (int, int) -> bool {
    (tick: int, sn: int) =>
      if w.tickStart != 0 then tick < w.tickStart else if w.snStart != 0 then sn < w.snStart else false
  }

  lemma FetchesBefore(lines: seq<Line>, cfg: Config)
    ensures var head := lines[..Start(lines, cfg)];
            forall j :: 0 <= j < |head| && head[j].FetchLine? ==> Before(cfg.window)(head[j].tick, head[j].sn)
  {
    var found := FirstFrom(lines, 0, InRegion(cfg));
    forall j | 0 <= j < Start(lines, cfg) && lines[j].FetchLine?
      ensures Before(cfg.window)(lines[j].tick, lines[j].sn)
    {
      assert IsFetch()(lines[j]) && j < found;
      assert !InRegion(cfg)(lines[j]);
    }
  }

  lemma NoneShown(insts: seq<Inst>, w: Window, bad: (int, int) -> bool)
    requires forall x :: x in insts ==> bad(x.Tick(Fetch), x.sn)
    requires forall x: Inst :: bad(x.Tick(Fetch), x.sn) ==> !Shown(w, x)
    ensures Filter(insts, Shows(w)) == []
  {
    forall i | 0 <= i < |insts|
      ensures !Shows(w)(insts[i])
    {
      assert insts[i] in insts;
    }
    FilterNone(insts, Shows(w));
  }

  lemma TailNotShown(lines: seq<Line>, stop: nat, curr: Inst, seen: set<Stage>, cfg: Config)
    requires stop < |lines| && BehindRegion(cfg)(lines[stop]) && BoundedDrift(lines, cfg)
    requires WholeGroups(lines[stop..], seen)
    ensures Filter(Collect(lines[stop..], curr, cfg.storeCompletions), Shows(cfg.window)) == []
  {
    var w, sc := cfg.window, cfg.storeCompletions;
    var byTick := w.tickStop > 0 && lines[stop].tick > w.tickStop + cfg.drift;
    var bad := (tick: int, sn: int) => if byTick then tick > w.tickStop else sn > w.snStop;
    var tail := Collect(lines[stop..], curr, sc);
    CollectedFetches(lines[stop..][1..], Update(curr, lines[stop], sc), {Fetch}, sc, bad);
    forall i | 0 <= i < |tail|
      ensures !Shows(w)(tail[i])
    {
      assert tail[i] in tail;
    }
    FilterNone(tail, Shows(w));
  }

  lemma DisplacedWithin(a: seq<Inst>, b: seq<Inst>, c: seq<Inst>, places: nat)
    requires Displaced(a + b + c, places)
    ensures Displaced(b, places)
  {
    var s := a + b + c;
    forall j | 0 <= j < |b|
      ensures CountAbove(b[..j], b[j].sn, Sn) <= places
    {
      assert s[..|a| + j] == a + b[..j];
      assert s[|a| + j] == b[j];
      CountAboveConcat(a, b[..j], b[j].sn, Sn);
    }
  }

  lemma FilterMiddle(a: seq<Inst>, b: seq<Inst>, c: seq<Inst>, p: Inst -> bool)
    requires Filter(a, p) == [] && Filter(c, p) == []
    ensures Filter(a + b + c, p) == Filter(b, p)
  {
    FilterConcat(a + b, c, p);
    FilterConcat(a, b, p);
  }

  /** The trace is the part before the region, the queued part and the part behind the region. */
  lemma ThreeParts(lines: seq<Line>, cfg: Config) returns (head: seq<Inst>, tail: seq<Inst>)
    requires cfg.window.tickStart >= 0 && cfg.window.snStart >= 0
    requires WholeGroups(lines, {}) && BoundedDrift(lines, cfg)
    ensures Collect(lines, BLANK, cfg.storeCompletions) == head + Queued(lines, cfg) + tail
    ensures Filter(head, Shows(cfg.window)) == [] && Filter(tail, Shows(cfg.window)) == []
  {
    var start := Start(lines, cfg);
    var stop := FirstFrom(lines, start, BehindRegion(cfg));
    var first, middle, last := lines[..start], lines[start..stop], lines[stop..];
    CutInThree(lines, start, stop);
    var d := After(first + middle, BLANK, cfg.storeCompletions);
    CollectParts(first, middle, last, cfg.storeCompletions);
    head, tail := Collect(first, BLANK, cfg.storeCompletions), Collect(last, d, cfg.storeCompletions);
    HeadNotShown(lines, cfg);
    TailPart(lines, first + middle, stop, d, cfg);
  }

  lemma CutInThree<T>(s: seq<T>, i: nat, j: nat)
    requires i <= j <= |s|
    ensures s == s[..i] + s[i..j] + s[j..]
  {
  }

  lemma TailPart(lines: seq<Line>, front: seq<Line>, stop: nat, d: Inst, cfg: Config)
    requires stop <= |lines| && lines == front + lines[stop..] && WholeGroups(lines, {}) && BoundedDrift(lines, cfg)
    requires stop < |lines| ==> BehindRegion(cfg)(lines[stop])
    ensures Filter(Collect(lines[stop..], d, cfg.storeCompletions), Shows(cfg.window)) == []
  {
    if stop < |lines| {
      SplitGroups(front, lines[stop..], {});
      TailNotShown(lines, stop, d, SeenAfter(front, {}), cfg);
    }
  }

  /** Collecting in three parts, where the middle part begins with a fetch line if it is not empty. */
  lemma CollectParts(first: seq<Line>, middle: seq<Line>, last: seq<Line>, sc: bool)
    requires WholeGroups(first + middle + last, {}) && (middle != [] ==> middle[0].FetchLine?)
    ensures Collect(first + middle + last, BLANK, sc) ==
            Collect(first, BLANK, sc) + Collect(middle, BLANK, sc) + Collect(last, After(first + middle, BLANK, sc), sc)
  {
    SplitGroups(first + middle, last, {});
    SplitGroups(first, middle, {});
    SplitCollect(first + middle, last, BLANK, sc);
    SplitCollect(first, middle, BLANK, sc);
    if middle != [] {
      FreshStart(first, middle, SeenAfter(first, {}), sc);
    }
  }

  /** A part that begins with a fetch line reads the same with or without what came before it. */
  lemma FreshStart(first: seq<Line>, middle: seq<Line>, seen: set<Stage>, sc: bool)
    requires middle != [] && middle[0].FetchLine? && WholeGroups(middle, seen)
    ensures Collect(middle, After(first, BLANK, sc), sc) == Collect(middle, BLANK, sc)
  {
    if !sc {
      NoStrayStore(first, BLANK);
    }
    var c := After(first, BLANK, sc);
    CollectForgets(middle[1..], Update(c, middle[0], sc), Update(BLANK, middle[0], sc), {Fetch}, sc);
  }

  /**
   The streaming viewer against the obvious one. For every trace of whole instructions that keeps the
   documented bounds on disorder, skipping ahead, stopping early and the bounded queue change nothing:
   what is printed is the stable sort of all instructions of the trace, restricted to the window.
   */
  lemma ViewerExact(lines: seq<Line>, cfg: Config)
    requires cfg.min <= cfg.max && cfg.window.tickStart >= 0 && cfg.window.snStart >= 0
    requires WholeGroups(lines, {}) && BoundedDrift(lines, cfg)
    requires Displaced(Collect(lines, BLANK, cfg.storeCompletions), cfg.min)
    ensures Filter(Emitted(Queued(lines, cfg), cfg.min, cfg.max), Shows(cfg.window))
         == Filter(StableSort(Collect(lines, BLANK, cfg.storeCompletions), Sn), Shows(cfg.window))
  {
    var w, all, mid := cfg.window, Collect(lines, BLANK, cfg.storeCompletions), Queued(lines, cfg);
    var head, tail := ThreeParts(lines, cfg);
    DisplacedWithin(head, mid, tail, cfg.min);
    BoundedDisplacementSorts(mid, cfg.min, cfg.max, w);
    FilterSortCommute(mid, Shows(w), Sn);
    FilterSortCommute(all, Shows(w), Sn);
    FilterMiddle(head, mid, tail, Shows(w));
  }
}
