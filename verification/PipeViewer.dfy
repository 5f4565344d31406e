/**
 The viewer as a whole: the instructions that leave the queue are drawn one after the other, and the first that
 cannot be drawn ends the run. Exactly when that happens, and that it does not on traces with real ticks.
 */
module PipeViewer {
  import opened StableSorting
  import opened ReorderQueue
  import opened PipeTrace
  import opened PipeRows
  import opened PipeTimes

  // ---------- what can be drawn ----------

  predicate CanPrint(inst: Inst, f: Frame)
    requires f.Valid()
  {
    Recorded(inst, f.sc) && !(NumLines(inst, f) == 1 && Events(inst, f, 0) == [])
  }

  /** Some tick shows that the instruction was ever there. */
  ghost predicate HasEvent(inst: Inst, sc: bool) {
    inst.Tick(Fetch) != 0 || exists s :: (s == Store ==> sc) && inst.Tick(s) > 0
  }

  /** Without a fetch tick, a row starts at tick zero. */
  lemma NoFetchRow(inst: Inst, f: Frame, s: Stage)
    requires f.Valid() && inst.Tick(Fetch) == 0 && NumLines(inst, f) == 1 && s in Stages(f.sc)
    ensures s in Events(inst, f, 0) <==> inst.Tick(s) > 0
  {
    LastEventBounds(inst, f);
    OneRowIffCompact(inst, f);
    EventMembers(inst, f, 0, s);
  }

  lemma NothingIsCompact(inst: Inst, f: Frame)
    requires f.Valid() && inst.Tick(Fetch) == 0 && forall s :: s in Stages(f.sc) ==> inst.Tick(s) <= 0
    ensures NumLines(inst, f) == 1
  {
    OneRowIffCompact(inst, f);
  }

  /** Of the instructions whose stages are recorded, exactly those without any event cannot be drawn. */
  lemma CanPrintExact(inst: Inst, f: Frame)
    requires f.Valid()
    ensures CanPrint(inst, f) <==>
            (forall s: Stage :: (s == Store ==> f.sc) ==> s in inst.ticks) && HasEvent(inst, f.sc)
  {
    forall s: Stage ensures s in Stages(f.sc) <==> (s == Store ==> f.sc) {
      StagesExact(f.sc, s);
    }
    if inst.Tick(Fetch) != 0 {
      FetchInFirstRow(inst, f);
    } else if s :| s in Stages(f.sc) && inst.Tick(s) > 0 {
      if NumLines(inst, f) == 1 {
        NoFetchRow(inst, f, s);
      }
    } else {
      NothingIsCompact(inst, f);
      if Events(inst, f, 0) != [] {
        var s := Events(inst, f, 0)[0];
        EventMembers(inst, f, 0, s);
        NoFetchRow(inst, f, s);
      }
    }
  }

  // ---------- the run ----------

  /** The instructions to be printed, in order. */
  function Printed(lines: seq<Line>, cfg: Config): seq<Inst> {
    Filter(Emitted(Queued(lines, cfg), cfg.min, cfg.max), Shows(cfg.window))
  }

  ghost predicate IsDrawing(rows: seq<Row>, inst: Inst, f: Frame)
    requires f.Valid()
  {
    && CanPrint(inst, f) && |rows| == NumLines(inst, f) && AreRows(rows, inst, f)
    && AllRows(rows, inst, f) && ShowTime(rows, inst, f)
  }

  /** One drawing for each of the first instructions. */
  ghost predicate AreDrawings(pages: seq<seq<Row>>, insts: seq<Inst>, f: Frame)
    requires f.Valid()
  {
    Each(pages, insts, (rows, inst) => f.Valid() && IsDrawing(rows, inst, f))
  }

  /** The first elements of the second list fit those of the first. */
  ghost predicate Each<T, U>(ts: seq<T>, us: seq<U>, fits: (T, U) -> bool) {
    |ts| <= |us| && forall k :: 0 <= k < |ts| ==> fits(ts[k], us[k])
  }

  lemma OneMore<T, U>(ts: seq<T>, t: T, us: seq<U>, fits: (T, U) -> bool)
    requires Each(ts, us, fits) && |ts| < |us| && fits(t, us[|ts|])
    ensures Each(ts + [t], us, fits)
  {
  }

  method Draw(inst: Inst, f: Frame) returns (ok: bool, rows: seq<Row>)
    requires f.Valid()
    ensures (ok <==> CanPrint(inst, f)) && (ok ==> IsDrawing(rows, inst, f))
  {
    ok, rows := PrintInst(inst, f);
    if ok {
      if rows != [] {
        RowTick(rows, inst, f, |rows| - 1);
      }
      RowsSuffice(rows, inst, f);
      RowsShowTime(rows, inst, f);
    }
  }

  lemma OneMoreDrawing(pages: seq<seq<Row>>, rows: seq<Row>, insts: seq<Inst>, f: Frame)
    requires f.Valid() && AreDrawings(pages, insts, f)
    requires |pages| < |insts| && IsDrawing(rows, insts[|pages|], f)
    ensures AreDrawings(pages + [rows], insts, f)
  {
    OneMore(pages, rows, insts, (r: seq<Row>, inst: Inst) => f.Valid() && IsDrawing(r, inst, f));
  }

  /** Draws instruction after instruction, until one cannot be drawn. */
  method DrawAll(insts: seq<Inst>, f: Frame) returns (ok: bool, pages: seq<seq<Row>>)
    requires f.Valid()
    ensures AreDrawings(pages, insts, f)
    ensures if ok then |pages| == |insts| else |pages| < |insts| && !CanPrint(insts[|pages|], f)
  {
    pages := [];
    for k := 0 to |insts|
      invariant |pages| == k && AreDrawings(pages, insts, f)
    {
      var drawn, rows := Draw(insts[k], f);
      if !drawn {
        return false, pages;
      }
      OneMoreDrawing(pages, rows, insts, f);
      pages := pages + [rows];
    }
    ok := true;
  }

  /** The whole viewer: what it draws, and where it fails. */
  method ViewTrace(lines: seq<Line>, cfg: Config, width: int, cycle: int) returns (ok: bool, pages: seq<seq<Row>>)
    requires cfg.min <= cfg.max && Frame(width, cycle, cfg.storeCompletions).Valid()
    ensures var f, insts := Frame(width, cycle, cfg.storeCompletions), Printed(lines, cfg);
            && AreDrawings(pages, insts, f)
            && if ok then |pages| == |insts| else |pages| < |insts| && !CanPrint(insts[|pages|], f)
  {
    var insts := ProcessTrace(lines, cfg);
    ok, pages := DrawAll(insts, Frame(width, cycle, cfg.storeCompletions));
  }

  // ---------- what is in the queue ----------

  ghost predicate Within(s: seq<Inst>, all: seq<Inst>) { forall x :: x in s ==> x in all }

  lemma WithinParts(d: seq<Inst>, s: seq<Inst>, k: nat, all: seq<Inst>)
    requires k <= |s| && Within(d, all) && Within(s, all)
    ensures Within(d + s[..k], all) && Within(s[k..], all)
  {
  }

  lemma DrainWithin(st: State, lower: nat, all: seq<Inst>)
    requires Within(st.queue, all) && Within(st.drained, all)
    ensures Within(Drain(st, lower).queue, all) && Within(Drain(st, lower).drained, all)
  {
    var s := StableSort(st.queue, Sn);
    SortMembers(st.queue, Sn);
    WithinParts(st.drained, s, if |s| > lower then |s| - lower else 0, all);
  }

  lemma FeedWithin(st: State, x: Inst, min: nat, max: nat, all: seq<Inst>)
    requires Within(st.queue, all) && Within(st.drained, all) && x in all
    ensures Within(Feed(st, x, min, max).queue, all) && Within(Feed(st, x, min, max).drained, all)
  {
    var grown := st.(queue := st.queue + [x]);
    assert Within(grown.queue, all);
    DrainWithin(grown, min, all);
  }

  /** The queue holds, and gives away, nothing that did not arrive. */
  lemma {:induction false} RunWithin(stream: seq<Inst>, min: nat, max: nat, all: seq<Inst>)
    requires Within(stream, all)
    ensures Within(Run(stream, min, max).queue, all) && Within(Run(stream, min, max).drained, all)
  {
    if stream != [] {
      var n := |stream| - 1;
      RunWithin(stream[..n], min, max, all);
      FeedWithin(Run(stream[..n], min, max), stream[n], min, max, all);
    }
  }

  lemma PrintedMembers(lines: seq<Line>, cfg: Config)
    ensures Within(Printed(lines, cfg), Queued(lines, cfg))
  {
    var stream := Queued(lines, cfg);
    RunWithin(stream, cfg.min, cfg.max, stream);
    DrainWithin(Run(stream, cfg.min, cfg.max), 0, stream);
    FilterMembers(Emitted(stream, cfg.min, cfg.max), Shows(cfg.window));
  }

  /** A whole group of lines leaves a tick for every stage. */
  lemma {:induction false} CollectedRecorded(lines: seq<Line>, curr: Inst, seen: set<Stage>, sc: bool)
    requires WholeGroups(lines, seen) && seen <= curr.ticks.Keys
    ensures forall x :: x in Collect(lines, curr, sc) ==> Recorded(x, sc)
  {
    if lines != [] {
      var next := Update(curr, lines[0], sc);
      CollectedRecorded(lines[1..], next, SeenNext(lines[0], seen), sc);
      if lines[0].RetireLine? {
        RetiredRecorded(curr, lines[0], seen, sc);
      }
    }
  }

  lemma RetiredRecorded(curr: Inst, line: Line, seen: set<Stage>, sc: bool)
    requires line.RetireLine? && BEFORE_RETIRE <= seen <= curr.ticks.Keys
    ensures Recorded(Update(curr, line, sc), sc)
  {
    var r := Update(curr, line, sc);
    forall s | s in Stages(sc) ensures s in r.ticks {
      assert s in BEFORE_RETIRE || s == Retire || (sc && s == Store);
    }
  }

  /** The queued part of a trace of whole instructions consists of whole instructions. */
  lemma QueuedGroups(lines: seq<Line>, cfg: Config)
    requires WholeGroups(lines, {})
    ensures var start := Start(lines, cfg);
            WholeGroups(lines[start..FirstFrom(lines, start, BehindRegion(cfg))], {})
  {
    var start := Start(lines, cfg);
    var stop := FirstFrom(lines, start, BehindRegion(cfg));
    var first, middle, last := lines[..start], lines[start..stop], lines[stop..];
    CutInThree(lines, start, stop);
    SplitGroups(first + middle, last, {});
    SplitGroups(first, middle, {});
    assert middle != [] ==> middle[0] == lines[start] && IsFetch()(lines[start]);
  }

  lemma QueuedRecorded(lines: seq<Line>, cfg: Config)
    requires WholeGroups(lines, {})
    ensures forall x :: x in Queued(lines, cfg) ==> Recorded(x, cfg.storeCompletions)
  {
    var start := Start(lines, cfg);
    QueuedGroups(lines, cfg);
    var middle := lines[start..FirstFrom(lines, start, BehindRegion(cfg))];
    CollectedRecorded(middle, BLANK, {}, cfg.storeCompletions);
  }

  // ---------- main results ----------

  /** On a trace of whole instructions the viewer gets through exactly if every printed one has an event. */
  lemma ViewExact(lines: seq<Line>, cfg: Config, f: Frame)
    requires WholeGroups(lines, {}) && f.Valid() && f.sc == cfg.storeCompletions
    ensures (forall x :: x in Printed(lines, cfg) ==> CanPrint(x, f)) <==>
            (forall x :: x in Printed(lines, cfg) ==> HasEvent(x, f.sc))
  {
    PrintedMembers(lines, cfg);
    QueuedRecorded(lines, cfg);
    forall x | x in Printed(lines, cfg) ensures CanPrint(x, f) <==> HasEvent(x, f.sc) {
      CanPrintExact(x, f);
    }
  }

  ghost predicate RealFetches(lines: seq<Line>) {
    forall j :: 0 <= j < |lines| && lines[j].FetchLine? ==> lines[j].tick > 0
  }

  lemma QueuedFetched(lines: seq<Line>, cfg: Config)
    requires WholeGroups(lines, {}) && RealFetches(lines)
    ensures forall x :: x in Queued(lines, cfg) ==> x.Tick(Fetch) > 0
  {
    var start := Start(lines, cfg);
    QueuedGroups(lines, cfg);
    var middle := lines[start..FirstFrom(lines, start, BehindRegion(cfg))];
    CollectedFetches(middle, BLANK, {}, cfg.storeCompletions, (tick: int, sn: int) => tick > 0);
  }

  /** No positive bound on sequence numbers or fetch ticks excludes the instruction, and it is committed if asked. */
  predicate InWindow(w: Window, x: Inst) {
    && (w.snStart <= 0 || w.snStart <= x.sn) && (w.snStop <= 0 || x.sn <= w.snStop)
    && (w.tickStart <= 0 || w.tickStart <= x.Tick(Fetch)) && (w.tickStop <= 0 || x.Tick(Fetch) <= w.tickStop)
    && (w.onlyCommitted ==> x.Tick(Retire) != 0)
  }

  lemma PrintedAre(all: seq<Inst>, w: Window)
    ensures forall x :: x in Filter(StableSort(all, Sn), Shows(w)) <==> x in all && InWindow(w, x)
  {
    SortMembers(all, Sn);
    FilterMembers(StableSort(all, Sn), Shows(w));
  }

  /**
   The viewer end to end. On a trace of whole instructions, fetched at ticks above zero, that keeps the documented
   bounds on disorder: every instruction of the stably sorted trace that is in the window can be drawn, and these
   are the ones that are drawn.
   */
  lemma WholeViewer(lines: seq<Line>, cfg: Config, f: Frame)
    requires cfg.min <= cfg.max && cfg.window.tickStart >= 0 && cfg.window.snStart >= 0
    requires WholeGroups(lines, {}) && BoundedDrift(lines, cfg) && RealFetches(lines)
    requires Displaced(Collect(lines, BLANK, cfg.storeCompletions), cfg.min)
    requires f.Valid() && f.sc == cfg.storeCompletions
    ensures Printed(lines, cfg)
         == Filter(StableSort(Collect(lines, BLANK, cfg.storeCompletions), Sn), Shows(cfg.window))
    ensures forall x :: x in Printed(lines, cfg) <==>
              x in Collect(lines, BLANK, cfg.storeCompletions) && InWindow(cfg.window, x)
    ensures forall x :: x in Printed(lines, cfg) ==> CanPrint(x, f)
  {
    ViewerExact(lines, cfg);
    PrintedAre(Collect(lines, BLANK, cfg.storeCompletions), cfg.window);
    PrintedMembers(lines, cfg);
    QueuedFetched(lines, cfg);
    ViewExact(lines, cfg, f);
  }
}
