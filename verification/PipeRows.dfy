/**
 The timeline of one instruction: its stage ticks are folded onto rows of `width` cells, each cell
 one cycle wide. A timeline shorter than a row is printed in compact form, wrapped around the end
 of a single row.
 */
module PipeRows {
  import opened StableSorting
  import opened ReorderQueue
  import opened Arith

  function Stages(sc: bool): seq<Stage> {
    [Fetch, Decode, Rename, Dispatch, Issue, Complete, Retire] + if sc then [Store] else []
  }

  /** All stages, store completions only where they are asked for. */
  lemma StagesExact(sc: bool, s: Stage)
    ensures s in Stages(sc) <==> (s == Store ==> sc)
  {
    assert s != Store ==> s in [Fetch, Decode, Rename, Dispatch, Issue, Complete, Retire];
  }

  /** The record holds a tick for each stage, be it zero. */
  predicate Recorded(inst: Inst, sc: bool) {
    forall s :: s in Stages(sc) ==> s in inst.ticks
  }

  function Shorthand(s: Stage): char {
    match s
    case Fetch => 'f' case Decode => 'd' case Rename => 'n' case Dispatch => 'p'
    case Issue => 'i' case Complete => 'c' case Retire => 'r' case Store => 's'
  }

  /** The position of the stage's name in the alphabet: events are sorted by offset, then name. */
  function NameRank(s: Stage): (r: nat)
    ensures r < 8
  {
    match s
    case Complete => 0 case Decode => 1 case Dispatch => 2 case Fetch => 3
    case Issue => 4 case Rename => 5 case Retire => 6 case Store => 7
  }

  datatype Frame = Frame(width: int, cycle: int, sc: bool) {
    function TimeWidth(): int { width * cycle }

    predicate Valid() { width > 0 && cycle > 0 && TimeWidth() > 0 }
  }

  // ---------- geometry ----------

  function MaxTick(inst: Inst, stages: seq<Stage>): (m: int)
    requires stages != []
    ensures forall s :: s in stages ==> inst.Tick(s) <= m
    ensures exists s :: s in stages && inst.Tick(s) == m
  {
    var t := inst.Tick(stages[|stages| - 1]);
    if |stages| == 1 then
      assert stages == [stages[0]];
      t
    else
      var m := MaxTick(inst, stages[..|stages| - 1]);
      assert stages == stages[..|stages| - 1] + [stages[|stages| - 1]];
      if t > m then t else m
  }

  function LastEvent(inst: Inst, f: Frame): int { MaxTick(inst, Stages(f.sc)) }

  function BaseTick(inst: Inst, f: Frame): int
    requires f.Valid()
  {
    inst.Tick(Fetch) / f.TimeWidth() * f.TimeWidth()
  }

  predicate IsCompact(inst: Inst, f: Frame) {
    LastEvent(inst, f) - inst.Tick(Fetch) < f.TimeWidth()
  }

  function NumLines(inst: Inst, f: Frame): int
    requires f.Valid()
  {
    if IsCompact(inst, f) then 1
    else (LastEvent(inst, f) - BaseTick(inst, f)) / f.TimeWidth() + 1
  }

  function RowStart(inst: Inst, f: Frame, i: int): int
    requires f.Valid()
  {
    BaseTick(inst, f) + i * f.TimeWidth()
  }

  function RowEnd(inst: Inst, f: Frame, i: int): int
    requires f.Valid()
  {
    RowStart(inst, f, i) + f.TimeWidth() +
    (if NumLines(inst, f) == 1 then inst.Tick(Fetch) - BaseTick(inst, f) else 0)
  }

  /** Stage `s` has an event in row `i`. */
  predicate InRow(inst: Inst, f: Frame, i: int, s: Stage)
    requires f.Valid()
  {
    inst.Tick(s) != 0 && RowStart(inst, f, i) <= inst.Tick(s) < RowEnd(inst, f, i)
  }

  function RowFilter(inst: Inst, f: Frame, i: int): Stage -> bool
    requires f.Valid()
  {
    s => InRow(inst, f, i, s)
  }

  function Offset(inst: Inst, f: Frame, s: Stage): (o: int)
    requires f.Valid()
    ensures 0 <= o < f.TimeWidth()
  {
    inst.Tick(s) % f.TimeWidth()
  }

  function Column(inst: Inst, f: Frame, s: Stage): int
    requires f.Valid()
  {
    Offset(inst, f, s) / f.cycle
  }

  function EventKey(inst: Inst, f: Frame): Stage -> int
    requires f.Valid()
  {
    s => Offset(inst, f, s) * 8 + NameRank(s)
  }

  function Events(inst: Inst, f: Frame, i: int): seq<Stage>
    requires f.Valid()
  {
    StableSort(Filter(Stages(f.sc), RowFilter(inst, f, i)), EventKey(inst, f))
  }

  /** A dispatch that coincides with the issue is left out of the drawing. */
  function Drawn(inst: Inst): Stage -> bool {
    (s: Stage) => !(s == Dispatch && inst.Tick(Dispatch) == inst.Tick(Issue))
  }

  function Marks(inst: Inst, f: Frame, i: int): seq<Stage>
    requires f.Valid()
  {
    Filter(Events(inst, f, i), Drawn(inst))
  }

  // ---------- the text of a row ----------

  function Dots(n: int, dot: char): (r: string)
    ensures |r| == if n > 0 then n else 0
    ensures forall j :: 0 <= j < |r| ==> r[j] == dot
  {
    seq(if n > 0 then n else 0, _ => dot)
  }

  /** How many of the first `k` marks fall on the cell of the mark before them. */
  function Collisions(cols: seq<int>, k: nat): nat
    requires k <= |cols|
  {
    if k <= 1 then 0
    else Collisions(cols, k - 1) + (if cols[k - 1] == cols[k - 2] then 1 else 0)
  }

  /** Where the `k`-th mark ends up: its column, pushed right by the collisions up to it. */
  function Place(cols: seq<int>, k: nat): int
    requires k < |cols|
  {
    cols[k] + Collisions(cols, k + 1)
  }

  predicate InFrame(cols: seq<int>, width: int) {
    && (forall k :: 0 <= k < |cols| ==> 0 <= cols[k] < width)
    && (forall j, k :: 0 <= j < k < |cols| ==> cols[j] <= cols[k])
  }

  /** `text` shows exactly the given letters, each at its place, and `dot` everywhere else. */
  ghost predicate IsTimeline(text: string, width: int, cols: seq<int>, letters: string, dot: char) {
    && |cols| == |letters|
    && |text| == width + Collisions(cols, |cols|)
    && (forall k :: 0 <= k < |cols| ==> 0 <= Place(cols, k) < |text| && text[Place(cols, k)] == letters[k])
    && (forall p :: 0 <= p < |text| ==> text[p] == dot || exists k :: 0 <= k < |cols| && Place(cols, k) == p)
  }

  function Columns(inst: Inst, f: Frame, marks: seq<Stage>): seq<int>
    requires f.Valid()
  {
    seq(|marks|, k requires 0 <= k < |marks| => Column(inst, f, marks[k]))
  }

  function Letters(marks: seq<Stage>): string {
    seq(|marks|, k requires 0 <= k < |marks| => Shorthand(marks[k]))
  }

  /** Places are distinct: a mark is never overwritten. */
  lemma {:induction false} PlacesIncrease(cols: seq<int>, j: nat, k: nat, width: int)
    requires InFrame(cols, width) && j < k < |cols|
    ensures Place(cols, j) < Place(cols, k)
    decreases k
  {
    assert cols[k - 1] <= cols[k];
    if j < k - 1 {
      PlacesIncrease(cols, j, k - 1, width);
    }
  }

  /** The first column behind the first `m` marks. */
  function Behind(cols: seq<int>, m: nat): int
    requires m <= |cols|
  {
    if m == 0 then 0 else cols[m - 1] + 1
  }

  /** The first `m` marks are drawn, each at its place, and nothing else. */
  ghost predicate DrawnTo(text: string, cols: seq<int>, letters: string, m: nat, dot: char)
    requires m <= |cols| == |letters|
  {
    && |text| == Behind(cols, m) + Collisions(cols, m)
    && (forall k :: 0 <= k < m ==> 0 <= Place(cols, k) < |text| && text[Place(cols, k)] == letters[k])
    && (forall p :: 0 <= p < |text| ==> text[p] == dot || exists k :: 0 <= k < m && Place(cols, k) == p)
  }

  lemma OneMoreMark(text: string, cols: seq<int>, letters: string, m: nat, dot: char, width: int)
    requires m < |cols| == |letters| && InFrame(cols, width) && DrawnTo(text, cols, letters, m, dot)
    ensures DrawnTo(text + Dots(cols[m] - Behind(cols, m), dot) + [letters[m]], cols, letters, m + 1, dot)
  {
    var more := text + Dots(cols[m] - Behind(cols, m), dot) + [letters[m]];
    assert Place(cols, m) == |more| - 1;
    forall p | 0 <= p < |more|
      ensures more[p] == dot || exists k :: 0 <= k < m + 1 && Place(cols, k) == p
    {
      if p < |text| {
        assert more[p] == text[p];
      } else if p == |more| - 1 {
        assert Place(cols, m) == p;
      }
    }
  }

  lemma LastDots(text: string, cols: seq<int>, letters: string, dot: char, width: int)
    requires |cols| == |letters| && InFrame(cols, width) && DrawnTo(text, cols, letters, |cols|, dot) && width >= 0
    ensures IsTimeline(text + Dots(width - Behind(cols, |cols|), dot), width, cols, letters, dot)
  {
  }

  /** Draws marks at the given columns, left to right. */
  method DrawRow(cols: seq<int>, letters: string, width: int, dot: char) returns (text: string)
    requires |cols| == |letters| && InFrame(cols, width)
    ensures width >= 0 ==> IsTimeline(text, width, cols, letters, dot)
  {
    text := "";
    var pos := 0;
    for m := 0 to |cols|
      invariant pos == Behind(cols, m) && DrawnTo(text, cols, letters, m, dot)
    {
      OneMoreMark(text, cols, letters, m, dot, width);
      text := text + Dots(cols[m] - pos, dot) + [letters[m]];
      pos := cols[m] + 1;
    }
    if width >= 0 {
      LastDots(text, cols, letters, dot, width);
    }
    text := text + Dots(width - pos, dot);
  }

  // ---------- rows of one instruction ----------

  datatype Row = Row(text: string, tick: int)

  /** The events of row `i`, gathered stage by stage and then sorted. */
  method GatherEvents(inst: Inst, f: Frame, start: int, end: int, ghost i: int) returns (events: seq<Stage>)
    requires f.Valid() && start == RowStart(inst, f, i) && end == RowEnd(inst, f, i)
    ensures events == Events(inst, f, i)
  {
    events := [];
    var stages := Stages(f.sc);
    for k := 0 to |stages|
      invariant events == Filter(stages[..k], RowFilter(inst, f, i))
    {
      FilterTake(stages, k, RowFilter(inst, f, i));
      var tick := inst.Tick(stages[k]);
      if tick != 0 {
        if tick >= start && tick < end {
          events := events + [stages[k]];
        }
      }
    }
    assert stages[..|stages|] == stages;
    events := StableSort(events, EventKey(inst, f));
  }

  lemma FilterTake(s: seq<Stage>, k: nat, p: Stage -> bool)
    requires k < |s|
    ensures Filter(s[..k + 1], p) == if p(s[k]) then Filter(s[..k], p) + [s[k]] else Filter(s[..k], p)
  {
    FilterSnoc(s[..k], s[k], p);
    assert s[..k + 1] == s[..k] + [s[k]];
  }

  method DrawnEvents(inst: Inst, events: seq<Stage>) returns (marks: seq<Stage>)
    ensures marks == Filter(events, Drawn(inst))
  {
    marks := [];
    for k := 0 to |events|
      invariant marks == Filter(events[..k], Drawn(inst))
    {
      FilterSnoc(events[..k], events[k], Drawn(inst));
      assert events[..k + 1] == events[..k] + [events[k]];
      if events[k] == Dispatch && inst.Tick(Dispatch) == inst.Tick(Issue) { continue; }
      marks := marks + [events[k]];
    }
    assert events[..|events|] == events;
  }

  /** Row `i` as it should be: its tick, and a timeline of its marks over '=' (abandoned) or '.'. */
  ghost predicate IsRow(row: Row, inst: Inst, f: Frame, i: int)
    requires f.Valid()
  {
    var marks := Marks(inst, f, i);
    && row.tick == RowStart(inst, f, i)
    && IsTimeline(row.text, f.width, Columns(inst, f, marks), Letters(marks),
                  if inst.Tick(Retire) == 0 then '=' else '.')
  }

  ghost predicate AreRows(rows: seq<Row>, inst: Inst, f: Frame)
    requires f.Valid()
  {
    forall i :: 0 <= i < |rows| ==> IsRow(rows[i], inst, f, i)
  }

  lemma AreRowsSnoc(rows: seq<Row>, row: Row, inst: Inst, f: Frame)
    requires f.Valid() && AreRows(rows, inst, f) && IsRow(row, inst, f, |rows|)
    ensures AreRows(rows + [row], inst, f)
  {
    var rows' := rows + [row];
    forall i | 0 <= i < |rows'|
      ensures IsRow(rows'[i], inst, f, i)
    {
      assert rows'[i] == if i < |rows| then rows[i] else row;
    }
  }

  method PrintRow(inst: Inst, f: Frame, i: int, start: int, events: seq<Stage>) returns (row: Row)
    requires f.Valid() && events == Events(inst, f, i) && start == RowStart(inst, f, i)
    ensures IsRow(row, inst, f, i)
  {
    var dot := if inst.Tick(Retire) == 0 then '=' else '.';
    var marks := DrawnEvents(inst, events);
    MarksInFrame(inst, f, i);
    var text := DrawRow(Columns(inst, f, marks), Letters(marks), f.width, dot);
    row := Row(text, start);
  }

  /**
   Prints one instruction. It fails if the record misses a stage. The compact form looks at its first event, so
   an instruction without any event in its only row cannot be printed either.
   */
  method PrintInst(inst: Inst, f: Frame) returns (ok: bool, rows: seq<Row>)
    requires f.Valid()
    ensures ok <==> Recorded(inst, f.sc) && !(NumLines(inst, f) == 1 && Events(inst, f, 0) == [])
    ensures ok ==> |rows| == NumLines(inst, f)
    ensures ok ==> AreRows(rows, inst, f)
  {
    if !Recorded(inst, f.sc) {
      return false, [];
    }
    NumLinesPositive(inst, f);
    var timeWidth := f.width * f.cycle;
    var base := inst.Tick(Fetch) / timeWidth * timeWidth;
    var last := LastEvent(inst, f);
    var numLines := 1;
    if last - inst.Tick(Fetch) >= timeWidth {
      numLines := (last - base) / timeWidth + 1;
    }
    rows := [];
    for i := 0 to numLines
      invariant |rows| == i
      invariant i > 0 ==> !(NumLines(inst, f) == 1 && Events(inst, f, 0) == [])
      invariant AreRows(rows, inst, f)
    {
      var start := base + i * timeWidth;
      var end := start + timeWidth;
      if numLines == 1 {
        end := end + (inst.Tick(Fetch) - base);
      }
      var events := GatherEvents(inst, f, start, end, i);
      if numLines == 1 && events == [] {
        return false, [];
      }
      var row := PrintRow(inst, f, i, start, events);
      AreRowsSnoc(rows, row, inst, f);
      rows := rows + [row];
    }
    ok := true;
  }

  // ---------- facts about the geometry ----------

  lemma BaseTickBelowFetch(inst: Inst, f: Frame)
    requires f.Valid()
    ensures BaseTick(inst, f) <= inst.Tick(Fetch) < BaseTick(inst, f) + f.TimeWidth()
  {
  }

  lemma LastEventBounds(inst: Inst, f: Frame)
    ensures inst.Tick(Fetch) <= LastEvent(inst, f)
    ensures forall s :: s in Stages(f.sc) ==> inst.Tick(s) <= LastEvent(inst, f)
  {
    assert Stages(f.sc)[0] == Fetch;
  }

  lemma NumLinesPositive(inst: Inst, f: Frame)
    requires f.Valid()
    ensures NumLines(inst, f) >= 1
  {
    LastEventBounds(inst, f);
    BaseTickBelowFetch(inst, f);
  }

  /** One row is printed exactly when the compact form is chosen. */
  lemma OneRowIffCompact(inst: Inst, f: Frame)
    requires f.Valid()
    ensures NumLines(inst, f) == 1 <==> IsCompact(inst, f)
  {
    LastEventBounds(inst, f);
    BaseTickBelowFetch(inst, f);
    if !IsCompact(inst, f) {
      RowCountCovers(f.TimeWidth(), LastEvent(inst, f) - BaseTick(inst, f), f.TimeWidth());
      DivModUnique(f.TimeWidth(), f.TimeWidth(), 1, 0);
    }
  }

  /** The row a tick belongs to. */
  function RowOf(inst: Inst, f: Frame, s: Stage): int
    requires f.Valid()
  {
    if NumLines(inst, f) == 1 then 0 else (inst.Tick(s) - BaseTick(inst, f)) / f.TimeWidth()
  }

  lemma RowTest(d: int, i: int, w: int)
    requires w > 0 && i >= 0
    ensures i * w <= d < i * w + w <==> d >= 0 && i == d / w
  {
    MulMono(0, i, w);
    if i * w <= d < i * w + w {
      DivModUnique(d, w, i, d - i * w);
    }
  }

  lemma RowCountCovers(d: int, last: int, w: int)
    requires 0 <= d <= last && w > 0
    ensures 0 <= d / w < last / w + 1
  {
    assert (last / w + 1) * w == last / w * w + w;
    if d / w > last / w {
      MulMono(last / w + 1, d / w, w);
    }
  }

  /**
   Every event is drawn in exactly one row, unless it lies before the first row's tick, and then in
   none. This needs no assumption on the ticks at all.
   */
  lemma EventInExactlyOneRow(inst: Inst, f: Frame, s: Stage)
    requires f.Valid() && s in Stages(f.sc) && inst.Tick(s) != 0
    ensures forall i :: 0 <= i < NumLines(inst, f) ==>
              (InRow(inst, f, i, s) <==> inst.Tick(s) >= BaseTick(inst, f) && i == RowOf(inst, f, s))
    ensures inst.Tick(s) >= BaseTick(inst, f) ==> 0 <= RowOf(inst, f, s) < NumLines(inst, f)
  {
    if NumLines(inst, f) == 1 {
      LastEventBounds(inst, f);
      BaseTickBelowFetch(inst, f);
      OneRowIffCompact(inst, f);
    } else {
      EventInManyRows(inst, f, s);
    }
  }

  lemma EventInManyRows(inst: Inst, f: Frame, s: Stage)
    requires f.Valid() && s in Stages(f.sc) && inst.Tick(s) != 0 && NumLines(inst, f) != 1
    ensures forall i :: 0 <= i < NumLines(inst, f) ==>
              (InRow(inst, f, i, s) <==> inst.Tick(s) >= BaseTick(inst, f) && i == RowOf(inst, f, s))
    ensures inst.Tick(s) >= BaseTick(inst, f) ==> 0 <= RowOf(inst, f, s) < NumLines(inst, f)
  {
    LastEventBounds(inst, f);
    OneRowIffCompact(inst, f);
    var d := inst.Tick(s) - BaseTick(inst, f);
    if d >= 0 {
      RowCountCovers(d, LastEvent(inst, f) - BaseTick(inst, f), f.TimeWidth());
    }
    forall i | 0 <= i < NumLines(inst, f)
      ensures InRow(inst, f, i, s) <==> d >= 0 && i == RowOf(inst, f, s)
    {
      InRowTest(inst, f, i, s);
    }
  }

  lemma InRowTest(inst: Inst, f: Frame, i: int, s: Stage)
    requires f.Valid() && inst.Tick(s) != 0 && NumLines(inst, f) != 1 && i >= 0
    ensures InRow(inst, f, i, s) <==> inst.Tick(s) >= BaseTick(inst, f) && i == RowOf(inst, f, s)
  {
    RowTest(inst.Tick(s) - BaseTick(inst, f), i, f.TimeWidth());
  }

  lemma EventMembers(inst: Inst, f: Frame, i: int, s: Stage)
    requires f.Valid()
    ensures s in Events(inst, f, i) <==> s in Stages(f.sc) && InRow(inst, f, i, s)
    ensures s in Marks(inst, f, i) <==> s in Events(inst, f, i) && Drawn(inst)(s)
  {
    FilterMembers(Stages(f.sc), RowFilter(inst, f, i));
    SortMembers(Filter(Stages(f.sc), RowFilter(inst, f, i)), EventKey(inst, f));
    FilterMembers(Events(inst, f, i), Drawn(inst));
  }

  lemma KeptAtMostOnce(all: seq<Stage>, p: Stage -> bool, key: Stage -> int, q: Stage -> bool, s: Stage)
    requires multiset(all)[s] <= 1
    ensures multiset(Filter(StableSort(Filter(all, p), key), q))[s] <= 1
  {
    var row := Filter(all, p);
    FilterMultiset(all, p);
    SortMultiset(row, key);
    FilterMultiset(StableSort(row, key), q);
  }

  lemma MarkedAtMostOnce(inst: Inst, f: Frame, i: int, s: Stage)
    requires f.Valid()
    ensures multiset(Marks(inst, f, i))[s] <= 1
  {
    StagesDistinct(f.sc, s);
    KeptAtMostOnce(Stages(f.sc), RowFilter(inst, f, i), EventKey(inst, f), Drawn(inst), s);
  }

  lemma StagesDistinct(sc: bool, s: Stage)
    ensures multiset(Stages(sc))[s] <= 1
  {
    CoreStages(s);
    if sc {
      assert multiset([Store]) == multiset{Store};
    }
  }

  lemma CoreStages(s: Stage)
    ensures var core := [Fetch, Decode, Rename, Dispatch, Issue, Complete, Retire];
            multiset(core)[s] == if s == Store then 0 else 1
  {
    var core := [Fetch, Decode, Rename, Dispatch, Issue, Complete, Retire];
    assert multiset(core) == multiset{Fetch, Decode, Rename, Dispatch, Issue, Complete, Retire};
  }

  lemma ColumnBounds(inst: Inst, f: Frame, s: Stage)
    requires f.Valid()
    ensures 0 <= Column(inst, f, s) < f.width
  {
    var o := Offset(inst, f, s);
    var c := o / f.cycle;
    assert o == c * f.cycle + o % f.cycle;
    if c >= f.width {
      MulMono(f.width, c, f.cycle);
    }
  }

  lemma ColumnsMono(a: int, b: int, c: int)
    requires 0 <= a <= b && c > 0
    ensures a / c <= b / c
  {
    RowCountCovers(a, b, c);
  }

  lemma MarksInFrame(inst: Inst, f: Frame, i: int)
    requires f.Valid()
    ensures InFrame(Columns(inst, f, Marks(inst, f, i)), f.width)
  {
    var marks, key := Marks(inst, f, i), EventKey(inst, f);
    SortSorted(Filter(Stages(f.sc), RowFilter(inst, f, i)), key);
    FilterSorted(Events(inst, f, i), Drawn(inst), key);
    forall k | 0 <= k < |marks|
      ensures 0 <= Columns(inst, f, marks)[k] < f.width
    {
      ColumnBounds(inst, f, marks[k]);
    }
    forall j, k | 0 <= j < k < |marks|
      ensures Columns(inst, f, marks)[j] <= Columns(inst, f, marks)[k]
    {
      assert key(marks[j]) <= key(marks[k]);
      ColumnsMono(Offset(inst, f, marks[j]), Offset(inst, f, marks[k]), f.cycle);
    }
  }

  lemma FetchInFirstRow(inst: Inst, f: Frame)
    requires f.Valid() && inst.Tick(Fetch) != 0
    ensures Fetch in Events(inst, f, 0)
  {
    assert Stages(f.sc)[0] == Fetch;
    BaseTickBelowFetch(inst, f);
    EventMembers(inst, f, 0, Fetch);
  }

  // ---------- main result ----------

  /**
   For an instruction that was fetched and whose other stages, if reached, came no earlier: printing
   succeeds, and each stage that was reached is marked in exactly one row and at no other place than
   the column of its tick, the coinciding dispatch alone excepted.
   */
  lemma EveryStageMarkedOnce(inst: Inst, f: Frame, s: Stage)
    requires f.Valid() && s in Stages(f.sc)
    requires inst.Tick(Fetch) > 0
    requires forall u :: u in Stages(f.sc) && inst.Tick(u) != 0 ==> inst.Tick(u) >= inst.Tick(Fetch)
    ensures Events(inst, f, 0) != []
    ensures forall i :: multiset(Marks(inst, f, i))[s] <= 1
    ensures forall i :: 0 <= i < NumLines(inst, f) ==>
      (s in Marks(inst, f, i) <==> inst.Tick(s) != 0 && Drawn(inst)(s) && i == RowOf(inst, f, s))
    ensures inst.Tick(s) != 0 ==> 0 <= RowOf(inst, f, s) < NumLines(inst, f)
  {
    NumLinesPositive(inst, f);
    forall i
      ensures multiset(Marks(inst, f, i))[s] <= 1
    {
      MarkedAtMostOnce(inst, f, i, s);
    }
    FetchInFirstRow(inst, f);
    BaseTickBelowFetch(inst, f);
    if inst.Tick(s) != 0 {
      EventInExactlyOneRow(inst, f, s);
    }
    forall i | 0 <= i < NumLines(inst, f)
      ensures s in Marks(inst, f, i) <==> inst.Tick(s) != 0 && Drawn(inst)(s) && i == RowOf(inst, f, s)
    {
      EventMembers(inst, f, i, s);
    }
  }
}
