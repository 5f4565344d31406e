/**
 What the viewer reads from a trace, line by line: which fetch, stage and retire lines make up the instruction that
 a retire line completes, and where each of its ticks comes from.
 */
module PipeGroups {
  import opened ReorderQueue
  import opened PipeTrace

  const MIDDLE: set<Stage> := {Decode, Rename, Dispatch, Issue, Complete}

  predicate Reports(line: Line, s: Stage) {
    match line
    case FetchLine(_, _, _) => s == Fetch
    case StageLine(stage, _) => s == stage
    case RetireLine(_, _) => s == Retire
    case OtherLine => false
  }

  /** Line `m` is the last before `b` that reports `s`, and no instruction begins or ends between them. */
  ghost predicate LastReport(lines: seq<Line>, s: Stage, m: nat, b: nat) {
    && m < b <= |lines| && Reports(lines[m], s)
    && forall j :: m < j < b ==> !Reports(lines[j], s) && !lines[j].FetchLine? && !lines[j].RetireLine?
  }

  function Retires(lines: seq<Line>): nat {
    if lines == [] then 0 else Retires(lines[1..]) + if lines[0].RetireLine? then 1 else 0
  }

  /**
   The instruction that the lines from the fetch at `a` to the retire at `b` describe: number and text are those of
   the fetch line, each tick is the one reported last, and the text is marked exactly if the retire tick is zero.
   */
  ghost predicate Describes(lines: seq<Line>, a: nat, b: nat, sc: bool, x: Inst) {
    && a < b < |lines| && lines[a].FetchLine? && lines[b].RetireLine?
    && (forall j :: a < j < b ==> !lines[j].FetchLine? && !lines[j].RetireLine?)
    && x.sn == lines[a].sn
    && x.disasm == (if lines[b].tick == 0 then "-----" + lines[a].disasm else lines[a].disasm)
    && x.ticks.Keys == {Fetch, Retire} + MIDDLE + (if sc then {Store} else {})
    && x.ticks[Fetch] == lines[a].tick && x.ticks[Retire] == lines[b].tick
    && (sc ==> x.ticks[Store] == lines[b].storeTick)
    && forall s :: s in MIDDLE ==>
         exists m :: a < m < b && LastReport(lines, s, m, b) && x.ticks[s] == lines[m].tick
  }

  // ---------- one more line ----------

  lemma {:induction false} AfterSnoc(lines: seq<Line>, line: Line, curr: Inst, sc: bool)
    ensures After(lines + [line], curr, sc) == Update(After(lines, curr, sc), line, sc)
  {
    if lines == [] {
      assert [line][1..] == [];
    } else {
      assert (lines + [line])[1..] == lines[1..] + [line];
      AfterSnoc(lines[1..], line, Update(curr, lines[0], sc), sc);
    }
  }

  lemma {:induction false} SeenSnoc(lines: seq<Line>, line: Line, seen: set<Stage>)
    ensures SeenAfter(lines + [line], seen) == SeenNext(line, SeenAfter(lines, seen))
  {
    if lines == [] {
      assert [line][1..] == [];
    } else {
      assert (lines + [line])[1..] == lines[1..] + [line];
      SeenSnoc(lines[1..], line, SeenNext(lines[0], seen));
    }
  }

  lemma OneMoreLine(lines: seq<Line>, b: nat, sc: bool)
    requires b < |lines|
    ensures After(lines[..b + 1], BLANK, sc) == Update(After(lines[..b], BLANK, sc), lines[b], sc)
    ensures SeenAfter(lines[..b + 1], {}) == SeenNext(lines[b], SeenAfter(lines[..b], {}))
  {
    assert lines[..b + 1] == lines[..b] + [lines[b]];
    AfterSnoc(lines[..b], lines[b], BLANK, sc);
    SeenSnoc(lines[..b], lines[b], {});
  }

  // ---------- the record under construction ----------

  /** A stage that the current instruction has reported: its tick is from the last such line. */
  lemma {:induction false} Reported(lines: seq<Line>, b: nat, sc: bool, s: Stage) returns (m: nat)
    requires b <= |lines| && s in SeenAfter(lines[..b], {})
    ensures LastReport(lines, s, m, b) && (lines[m].FetchLine? || lines[m].StageLine?)
    ensures var x := After(lines[..b], BLANK, sc); s in x.ticks && x.ticks[s] == lines[m].tick
    decreases b
  {
    var line := lines[b - 1];
    OneMoreLine(lines, b - 1, sc);
    if Reports(line, s) {
      m := b - 1;
    } else {
      m := Reported(lines, b - 1, sc, s);
    }
  }

  /** Number and text of the current instruction are those of its fetch line. */
  lemma {:induction false} FetchedAt(lines: seq<Line>, b: nat, sc: bool) returns (a: nat)
    requires b <= |lines| && Fetch in SeenAfter(lines[..b], {})
    ensures LastReport(lines, Fetch, a, b) && lines[a].FetchLine?
    ensures var x := After(lines[..b], BLANK, sc);
            && x.sn == lines[a].sn && x.disasm == lines[a].disasm
            && Fetch in x.ticks && x.ticks[Fetch] == lines[a].tick
    decreases b
  {
    OneMoreLine(lines, b - 1, sc);
    if lines[b - 1].FetchLine? {
      a := b - 1;
    } else {
      a := FetchedAt(lines, b - 1, sc);
    }
  }

  // ---------- the collected instructions ----------

  lemma {:induction false} CollectCount(lines: seq<Line>, curr: Inst, sc: bool)
    ensures |Collect(lines, curr, sc)| == Retires(lines)
  {
    if lines != [] {
      CollectCount(lines[1..], Update(curr, lines[0], sc), sc);
    }
  }

  /** The instruction that a retire line completes, in its place among the others. */
  lemma CollectAt(lines: seq<Line>, b: nat, sc: bool)
    requires b < |lines| && lines[b].RetireLine?
    ensures Retires(lines[..b]) < |Collect(lines, BLANK, sc)|
    ensures Collect(lines, BLANK, sc)[Retires(lines[..b])] == Update(After(lines[..b], BLANK, sc), lines[b], sc)
  {
    var head, rest, curr := lines[..b], lines[b..], After(lines[..b], BLANK, sc);
    assert lines == head + rest && rest[0] == lines[b];
    SplitCollect(head, rest, BLANK, sc);
    CollectCount(head, BLANK, sc);
    assert Collect(rest, curr, sc)[0] == Update(curr, lines[b], sc);
  }

  lemma AllSeen(lines: seq<Line>, b: nat)
    requires WholeGroups(lines, {}) && b < |lines| && lines[b].RetireLine?
    ensures BEFORE_RETIRE <= SeenAfter(lines[..b], {})
  {
    assert lines == lines[..b] + lines[b..];
    SplitGroups(lines[..b], lines[b..], {});
  }

  lemma MiddleRead(lines: seq<Line>, a: nat, b: nat, sc: bool, s: Stage) returns (m: nat)
    requires b < |lines| && s in MIDDLE && s in SeenAfter(lines[..b], {})
    requires a < b && lines[a].FetchLine?
    ensures a < m < b && LastReport(lines, s, m, b)
    ensures var x := After(lines[..b], BLANK, sc); s in x.ticks && x.ticks[s] == lines[m].tick
  {
    m := Reported(lines, b, sc, s);
  }

  lemma RetireDescribes(lines: seq<Line>, b: nat, sc: bool) returns (a: nat)
    requires WholeGroups(lines, {}) && b < |lines| && lines[b].RetireLine?
    ensures Describes(lines, a, b, sc, Update(After(lines[..b], BLANK, sc), lines[b], sc))
  {
    AllSeen(lines, b);
    var curr := After(lines[..b], BLANK, sc);
    var x := Update(curr, lines[b], sc);
    a := FetchedAt(lines, b, sc);
    forall s | s in MIDDLE
      ensures s in x.ticks && exists m :: a < m < b && LastReport(lines, s, m, b) && x.ticks[s] == lines[m].tick
    {
      var m := MiddleRead(lines, a, b, sc, s);
      assert x.ticks[s] == lines[m].tick;
    }
    if !sc {
      NoStrayStore(lines[..b], BLANK);
    }
    StagesAre(x.ticks.Keys, sc);
  }

  lemma StagesAre(keys: set<Stage>, sc: bool)
    requires {Fetch, Retire} + MIDDLE <= keys && (Store in keys <==> sc)
    ensures keys == {Fetch, Retire} + MIDDLE + (if sc then {Store} else {})
  {
    forall s: Stage ensures s in {Fetch, Retire} + MIDDLE || s == Store {
    }
  }

  /**
   On a trace of whole instructions there is one instruction per retire line, in that order, and each is the one
   that the lines since its fetch line describe.
   */
  lemma ReadExact(lines: seq<Line>, sc: bool)
    requires WholeGroups(lines, {})
    ensures |Collect(lines, BLANK, sc)| == Retires(lines)
    ensures forall b :: 0 <= b < |lines| && lines[b].RetireLine? ==>
              var n := Retires(lines[..b]);
              n < |Collect(lines, BLANK, sc)| && exists a :: Describes(lines, a, b, sc, Collect(lines, BLANK, sc)[n])
  {
    CollectCount(lines, BLANK, sc);
    forall b | 0 <= b < |lines| && lines[b].RetireLine?
      ensures var n := Retires(lines[..b]);
              n < |Collect(lines, BLANK, sc)| && exists a :: Describes(lines, a, b, sc, Collect(lines, BLANK, sc)[n])
    {
      CollectAt(lines, b, sc);
      var a := RetireDescribes(lines, b, sc);
    }
  }

  /** The retire line at `b` completes an instruction: a fetch line before it, and every stage reported in between. */
  ghost predicate Completes(lines: seq<Line>, a: nat, b: nat) {
    && a < b < |lines| && lines[a].FetchLine?
    && (forall j :: a < j < b ==> !lines[j].FetchLine? && !lines[j].RetireLine?)
    && forall s :: s in MIDDLE ==> exists m :: a < m < b && Reports(lines[m], s)
  }

  ghost predicate AllComplete(lines: seq<Line>) {
    forall b :: 0 <= b < |lines| && lines[b].RetireLine? ==> exists a :: Completes(lines, a, b)
  }

  lemma {:induction false} SeenBetween(lines: seq<Line>, a: nat, b: nat, s: Stage, m: nat)
    requires a <= m < b <= |lines| && lines[a].FetchLine? && Reports(lines[m], s) && !lines[m].RetireLine?
    requires forall j :: a < j < b ==> !lines[j].FetchLine? && !lines[j].RetireLine?
    ensures s in SeenAfter(lines[..b], {})
    decreases b
  {
    OneMoreLine(lines, b - 1, false);
    if m < b - 1 {
      SeenBetween(lines, a, b - 1, s, m);
    }
  }

  lemma CompleteSeen(lines: seq<Line>, a: nat, b: nat)
    requires Completes(lines, a, b)
    ensures BEFORE_RETIRE <= SeenAfter(lines[..b], {})
  {
    SeenBetween(lines, a, b, Fetch, a);
    forall s | s in MIDDLE ensures s in SeenAfter(lines[..b], {}) {
      var m :| a < m < b && Reports(lines[m], s);
      SeenBetween(lines, a, b, s, m);
    }
  }

  lemma {:induction false} GroupsFromSeen(lines: seq<Line>, k: nat)
    requires k <= |lines|
    requires forall b :: k <= b < |lines| && lines[b].RetireLine? ==> BEFORE_RETIRE <= SeenAfter(lines[..b], {})
    ensures WholeGroups(lines[k..], SeenAfter(lines[..k], {}))
    decreases |lines| - k
  {
    if k < |lines| {
      OneMoreLine(lines, k, false);
      GroupsFromSeen(lines, k + 1);
      assert lines[k..][0] == lines[k] && lines[k..][1..] == lines[k + 1..];
    }
  }

  /** A trace is one of whole instructions exactly if every retire line completes one. */
  lemma WholeGroupsExact(lines: seq<Line>)
    ensures WholeGroups(lines, {}) <==> AllComplete(lines)
  {
    if WholeGroups(lines, {}) {
      forall b | 0 <= b < |lines| && lines[b].RetireLine? ensures exists a :: Completes(lines, a, b) {
        var a := RetireDescribes(lines, b, false);
        assert Completes(lines, a, b);
      }
    }
    if AllComplete(lines) {
      forall b | 0 <= b < |lines| && lines[b].RetireLine? ensures BEFORE_RETIRE <= SeenAfter(lines[..b], {}) {
        var a :| Completes(lines, a, b);
        CompleteSeen(lines, a, b);
      }
      GroupsFromSeen(lines, 0);
      assert lines[0..] == lines && lines[..0] == [];
    }
  }

  // ---------- the region that is read ----------

  /** The line starts the region: by its tick if a start tick is given, else by its sequence number, else at once. */
  predicate Starts(w: Window, line: Line) {
    if w.tickStart != 0 then !line.OtherLine? && line.tick >= w.tickStart
    else if w.snStart != 0 then line.FetchLine? && line.sn >= w.snStart
    else true
  }

  /** A fetch so far behind a given end that nothing before the end can follow. */
  predicate Ends(w: Window, drift: int, max: int, line: Line) {
    line.FetchLine? &&
    ((w.tickStop > 0 && line.tick > w.tickStop + drift) || (w.snStop > 0 && line.sn > w.snStop + max))
  }

  /**
   The lines that are read for the queue: from the first fetch at or behind the first line that starts the region, up
   to the first fetch from there on that ends it.
   */
  lemma RegionRead(lines: seq<Line>, cfg: Config) returns (i: nat, start: nat, stop: nat)
    ensures i <= start <= stop <= |lines|
    ensures (forall j :: 0 <= j < i ==> !Starts(cfg.window, lines[j])) && (i < |lines| ==> Starts(cfg.window, lines[i]))
    ensures (forall j :: i <= j < start ==> !lines[j].FetchLine?) && (start < |lines| ==> lines[start].FetchLine?)
    ensures forall j :: start <= j < stop ==> !Ends(cfg.window, cfg.drift, cfg.max, lines[j])
    ensures stop < |lines| ==> Ends(cfg.window, cfg.drift, cfg.max, lines[stop])
    ensures Queued(lines, cfg) == Collect(lines[start..stop], BLANK, cfg.storeCompletions)
  {
    i := FirstFrom(lines, 0, InRegion(cfg));
    start := FirstFrom(lines, i, IsFetch());
    stop := FirstFrom(lines, start, BehindRegion(cfg));
    forall j | 0 <= j < i ensures !Starts(cfg.window, lines[j]) {
      assert !InRegion(cfg)(lines[j]);
    }
    forall j | i <= j < start ensures !lines[j].FetchLine? {
      assert !IsFetch()(lines[j]);
    }
    forall j | start <= j < stop ensures !Ends(cfg.window, cfg.drift, cfg.max, lines[j]) {
      assert !BehindRegion(cfg)(lines[j]);
    }
  }
}
