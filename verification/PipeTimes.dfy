/**
 What a drawn row says about time: every cell stands for one cycle, the first one from the tick that the row is
 labelled with, and a mark is in the cell of its tick. In compact form ticks behind the end of the row are drawn
 from its start again.
 */
module PipeTimes {
  import opened Text
  import opened Arith
  import opened StableSorting
  import opened ReorderQueue
  import opened PipeRows

  /** The name by which the trace calls a stage. */
  function StageName(s: Stage): string {
    match s
    case Fetch => "fetch" case Decode => "decode" case Rename => "rename" case Dispatch => "dispatch"
    case Issue => "issue" case Complete => "complete" case Retire => "retire" case Store => "store"
  }

  /** The tick in cell `c` of a row that starts at `start`. */
  predicate InCell(start: int, c: int, cycle: int, tick: int) {
    start + c * cycle <= tick < start + (c + 1) * cycle
  }

  /** The tick at which a stage is drawn: one row's time earlier if it lies behind the end of the row. */
  function DrawnAt(inst: Inst, f: Frame, start: int, s: Stage): int {
    if inst.Tick(s) >= start + f.width * f.cycle then inst.Tick(s) - f.width * f.cycle else inst.Tick(s)
  }

  /** Row `i` covers its own time, and the only row also that of the fetch beyond it. */
  predicate Covers(inst: Inst, f: Frame, start: int, only: bool, s: Stage) {
    && inst.Tick(s) != 0 && start <= inst.Tick(s)
    && inst.Tick(s) < (if only then inst.Tick(Fetch) + f.width * f.cycle else start + f.width * f.cycle)
  }

  predicate EarlierMark(inst: Inst, f: Frame, start: int, s: Stage, u: Stage) {
    var a, b := DrawnAt(inst, f, start, s), DrawnAt(inst, f, start, u);
    a < b || (a == b && TextBefore(StageName(s), StageName(u)))
  }

  /**
   A row and what it shows: one mark for each stage whose tick it covers, a dispatch with the issue excepted, in the
   order of time and then of their names, each in the cell of its tick.
   */
  ghost predicate ShowsTime(row: Row, inst: Inst, f: Frame, i: int, only: bool, marks: seq<Stage>, cols: seq<int>)
    requires f.Valid()
  {
    && row.tick == inst.Tick(Fetch) / (f.width * f.cycle) * (f.width * f.cycle) + i * (f.width * f.cycle)
    && |cols| == |marks|
    && IsTimeline(row.text, f.width, cols, Letters(marks), if inst.Tick(Retire) == 0 then '=' else '.')
    && (forall k :: 0 <= k < |marks| ==> InCell(row.tick, cols[k], f.cycle, DrawnAt(inst, f, row.tick, marks[k])))
    && (forall j, k :: 0 <= j < k < |marks| ==> EarlierMark(inst, f, row.tick, marks[j], marks[k]))
    && (forall s :: s in marks <==>
          && (s == Store ==> f.sc) && Covers(inst, f, row.tick, only, s)
          && !(s == Dispatch && inst.Tick(Dispatch) == inst.Tick(Issue)))
  }

  ghost predicate RowShows(row: Row, inst: Inst, f: Frame, i: int, only: bool)
    requires f.Valid()
  {
    exists marks, cols :: ShowsTime(row, inst, f, i, only, marks, cols)
  }

  ghost predicate ShowTime(rows: seq<Row>, inst: Inst, f: Frame)
    requires f.Valid()
  {
    forall i :: 0 <= i < |rows| ==> RowShows(rows[i], inst, f, i, |rows| == 1)
  }

  /** The last event is in the last row; there is one row exactly if it is less than a row's time behind the fetch. */
  ghost predicate AllRows(rows: seq<Row>, inst: Inst, f: Frame)
    requires f.Valid()
  {
    var n, last, w := |rows|, LastEvent(inst, f), f.width * f.cycle;
    && n >= 1 && (n == 1 <==> last < inst.Tick(Fetch) + w)
    && (n > 1 ==> rows[n - 1].tick <= last < rows[n - 1].tick + w)
  }

  /** The last event is the latest of all stages, and one of them. */
  lemma LatestStage(inst: Inst, f: Frame) returns (s: Stage)
    ensures (s == Store ==> f.sc) && inst.Tick(s) == LastEvent(inst, f)
    ensures forall u :: (u == Store ==> f.sc) ==> inst.Tick(u) <= inst.Tick(s)
  {
    LastEventBounds(inst, f);
    s :| s in Stages(f.sc) && inst.Tick(s) == LastEvent(inst, f);
    StagesExact(f.sc, s);
    forall u: Stage | u == Store ==> f.sc ensures inst.Tick(u) <= inst.Tick(s) {
      StagesExact(f.sc, u);
    }
  }

  // ---------- letters and names ----------

  /** A letter tells which stage it stands for, and it is in the stage's name. */
  lemma LetterMeans(s: Stage, u: Stage)
    ensures Shorthand(s) in StageName(s) && (Shorthand(s) == Shorthand(u) ==> s == u)
  {
    assert StageName(s)[0] == Shorthand(s) || StageName(s)[2] == Shorthand(s) || StageName(s)[3] == Shorthand(s);
  }

  lemma RankIsAlphabetical(s: Stage, u: Stage)
    requires NameRank(s) < NameRank(u)
    ensures TextBefore(StageName(s), StageName(u))
  {
    NextNames();
    if NameRank(s) + 1 < NameRank(u) {
      NamesApart(s, u);
    }
  }

  lemma NextNames()
    ensures TextBefore("complete", "decode") && TextBefore("decode", "dispatch") && TextBefore("dispatch", "fetch")
    ensures TextBefore("fetch", "issue") && TextBefore("issue", "rename") && TextBefore("rename", "retire")
    ensures TextBefore("retire", "store")
  {
    assert TextBefore("ecode", "ispatch");
    assert TextBefore("name", "tire");
    assert "rename"[1..] == "ename" && "retire"[1..] == "etire" && "ename"[1..] == "name" && "etire"[1..] == "tire";
    assert TextBefore("ename", "etire");
    assert "decode"[1..] == "ecode" && "dispatch"[1..] == "ispatch";
  }

  lemma NamesApart(s: Stage, u: Stage)
    requires NameRank(s) + 1 < NameRank(u)
    ensures StageName(s)[0] < StageName(u)[0]
  {
  }

  // ---------- columns ----------

  lemma RowStartIs(inst: Inst, f: Frame, i: int) returns (q: int)
    requires f.Valid()
    ensures RowStart(inst, f, i) == q * f.TimeWidth()
  {
    q := inst.Tick(Fetch) / f.TimeWidth() + i;
  }

  lemma OffsetIn(q: int, w: int, tick: int)
    requires w > 0 && q * w <= tick < q * w + w
    ensures tick % w == tick - q * w
  {
    DivModUnique(tick, w, q, tick - q * w);
  }

  /** The offset of an event in its row is the time since the row's start, after wrapping. */
  lemma OffsetIs(inst: Inst, f: Frame, i: int, s: Stage)
    requires f.Valid() && InRow(inst, f, i, s)
    ensures Offset(inst, f, s) == DrawnAt(inst, f, RowStart(inst, f, i), s) - RowStart(inst, f, i)
  {
    var q := RowStartIs(inst, f, i);
    var w := f.TimeWidth();
    BaseTickBelowFetch(inst, f);
    if inst.Tick(s) < q * w + w {
      OffsetIn(q, w, inst.Tick(s));
    } else {
      assert (q + 1) * w == q * w + w;
      OffsetIn(q + 1, w, inst.Tick(s));
    }
  }

  lemma CellOf(o: int, cycle: int, c: int)
    requires cycle > 0 && c == o / cycle
    ensures c * cycle <= o < (c + 1) * cycle
  {
    assert o == c * cycle + o % cycle;
    assert (c + 1) * cycle == c * cycle + cycle;
  }

  lemma ColumnTime(inst: Inst, f: Frame, i: int, s: Stage)
    requires f.Valid() && InRow(inst, f, i, s)
    ensures var start := RowStart(inst, f, i);
            InCell(start, Column(inst, f, s), f.cycle, DrawnAt(inst, f, start, s))
  {
    OffsetIs(inst, f, i, s);
    CellOf(Offset(inst, f, s), f.cycle, Column(inst, f, s));
  }

  lemma KeyOrder(inst: Inst, f: Frame, i: int, s: Stage, u: Stage)
    requires f.Valid() && InRow(inst, f, i, s) && InRow(inst, f, i, u)
    requires EventKey(inst, f)(s) <= EventKey(inst, f)(u) && s != u
    ensures EarlierMark(inst, f, RowStart(inst, f, i), s, u)
  {
    OffsetIs(inst, f, i, s);
    OffsetIs(inst, f, i, u);
    if Offset(inst, f, s) == Offset(inst, f, u) {
      RanksDiffer(s, u);
      RankIsAlphabetical(s, u);
    }
  }

  lemma RanksDiffer(s: Stage, u: Stage)
    requires s != u
    ensures NameRank(s) != NameRank(u)
  {
  }

  // ---------- rows ----------

  lemma CoversIs(inst: Inst, f: Frame, i: int, s: Stage)
    requires f.Valid() && 0 <= i < NumLines(inst, f)
    ensures InRow(inst, f, i, s) <==> Covers(inst, f, RowStart(inst, f, i), NumLines(inst, f) == 1, s)
  {
    if NumLines(inst, f) == 1 {
      assert i == 0 && 0 * f.TimeWidth() == 0;
      assert RowEnd(inst, f, 0) == inst.Tick(Fetch) + f.width * f.cycle;
    } else {
      assert RowEnd(inst, f, i) == RowStart(inst, f, i) + f.width * f.cycle;
    }
  }

  lemma MarksAre(inst: Inst, f: Frame, i: int)
    requires f.Valid() && 0 <= i < NumLines(inst, f)
    ensures forall s :: s in Marks(inst, f, i) <==>
              && (s == Store ==> f.sc) && Covers(inst, f, RowStart(inst, f, i), NumLines(inst, f) == 1, s)
              && !(s == Dispatch && inst.Tick(Dispatch) == inst.Tick(Issue))
  {
    forall s: Stage
      ensures s in Marks(inst, f, i) <==>
                && (s == Store ==> f.sc) && Covers(inst, f, RowStart(inst, f, i), NumLines(inst, f) == 1, s)
                && !(s == Dispatch && inst.Tick(Dispatch) == inst.Tick(Issue))
    {
      EventMembers(inst, f, i, s);
      StagesExact(f.sc, s);
      CoversIs(inst, f, i, s);
    }
  }

  lemma MarkInRow(inst: Inst, f: Frame, i: int, k: nat)
    requires f.Valid() && k < |Marks(inst, f, i)|
    ensures InRow(inst, f, i, Marks(inst, f, i)[k])
  {
    EventMembers(inst, f, i, Marks(inst, f, i)[k]);
  }

  lemma MarksApart(inst: Inst, f: Frame, i: int, j: nat, k: nat)
    requires f.Valid() && j < k < |Marks(inst, f, i)|
    ensures Marks(inst, f, i)[j] != Marks(inst, f, i)[k]
  {
    var marks := Marks(inst, f, i);
    MarkedAtMostOnce(inst, f, i, marks[j]);
    OnceApart(marks, j, k);
  }

  lemma OnceApart<T>(s: seq<T>, j: nat, k: nat)
    requires j < k < |s| && multiset(s)[s[j]] <= 1
    ensures s[j] != s[k]
  {
    assert s == s[..k] + s[k..];
    assert s[..k][j] in multiset(s[..k]) && s[k..][0] in multiset(s[k..]);
    assert multiset(s)[s[k]] == multiset(s[..k])[s[k]] + multiset(s[k..])[s[k]];
  }

  lemma MarksOrdered(inst: Inst, f: Frame, i: int, j: nat, k: nat)
    requires f.Valid() && j < k < |Marks(inst, f, i)|
    ensures EarlierMark(inst, f, RowStart(inst, f, i), Marks(inst, f, i)[j], Marks(inst, f, i)[k])
  {
    var key := EventKey(inst, f);
    SortSorted(Filter(Stages(f.sc), RowFilter(inst, f, i)), key);
    FilterSorted(Events(inst, f, i), Drawn(inst), key);
    MarkInRow(inst, f, i, j);
    MarkInRow(inst, f, i, k);
    MarksApart(inst, f, i, j, k);
    KeyOrder(inst, f, i, Marks(inst, f, i)[j], Marks(inst, f, i)[k]);
  }

  lemma MarksInCells(inst: Inst, f: Frame, i: int, start: int, marks: seq<Stage>, cols: seq<int>)
    requires f.Valid() && start == RowStart(inst, f, i)
    requires marks == Marks(inst, f, i) && cols == Columns(inst, f, marks)
    ensures forall k :: 0 <= k < |marks| ==> InCell(start, cols[k], f.cycle, DrawnAt(inst, f, start, marks[k]))
  {
    forall k | 0 <= k < |marks| ensures InCell(start, cols[k], f.cycle, DrawnAt(inst, f, start, marks[k])) {
      MarkInRow(inst, f, i, k);
      ColumnTime(inst, f, i, marks[k]);
    }
  }

  lemma MarksInTime(inst: Inst, f: Frame, i: int, start: int, marks: seq<Stage>)
    requires f.Valid() && start == RowStart(inst, f, i) && marks == Marks(inst, f, i)
    ensures forall j, k :: 0 <= j < k < |marks| ==> EarlierMark(inst, f, start, marks[j], marks[k])
  {
    forall j, k | 0 <= j < k < |marks| ensures EarlierMark(inst, f, start, marks[j], marks[k]) {
      MarksOrdered(inst, f, i, j, k);
    }
  }

  lemma RowShowsTime(row: Row, inst: Inst, f: Frame, i: int, only: bool, marks: seq<Stage>, cols: seq<int>)
    requires f.Valid() && 0 <= i < NumLines(inst, f) && IsRow(row, inst, f, i) && only == (NumLines(inst, f) == 1)
    requires marks == Marks(inst, f, i) && cols == Columns(inst, f, marks)
    ensures ShowsTime(row, inst, f, i, only, marks, cols)
  {
    MarksAre(inst, f, i);
    MarksInCells(inst, f, i, row.tick, marks, cols);
    MarksInTime(inst, f, i, row.tick, marks);
  }

  /** The rows of every printed instruction show when its stages happened. */
  lemma RowsShowTime(rows: seq<Row>, inst: Inst, f: Frame)
    requires f.Valid() && |rows| == NumLines(inst, f) && AreRows(rows, inst, f)
    ensures ShowTime(rows, inst, f)
  {
    forall i | 0 <= i < |rows| ensures RowShows(rows[i], inst, f, i, |rows| == 1) {
      var marks := Marks(inst, f, i);
      RowShowsTime(rows[i], inst, f, i, |rows| == 1, marks, Columns(inst, f, marks));
    }
  }

  lemma LastRow(d: int, w: int)
    requires w > 0 && d >= 0
    ensures d / w * w <= d < d / w * w + w
  {
    assert d == d / w * w + d % w;
  }

  /** There are as many rows as the events need. */
  lemma RowsSuffice(rows: seq<Row>, inst: Inst, f: Frame)
    requires f.Valid() && |rows| == NumLines(inst, f)
    requires rows != [] ==> rows[|rows| - 1].tick == RowStart(inst, f, |rows| - 1)
    ensures AllRows(rows, inst, f)
  {
    NumLinesPositive(inst, f);
    LastRowTime(inst, f, |rows|);
  }

  lemma RowTick(rows: seq<Row>, inst: Inst, f: Frame, i: nat)
    requires f.Valid() && i < |rows| && AreRows(rows, inst, f)
    ensures rows[i].tick == RowStart(inst, f, i)
  {
    assert IsRow(rows[i], inst, f, i);
  }

  /** The last event lies in the last row, and in the only one exactly if it is less than a row behind the fetch. */
  lemma LastRowTime(inst: Inst, f: Frame, n: nat)
    requires f.Valid() && n == NumLines(inst, f)
    ensures n > 1 ==> RowStart(inst, f, n - 1) <= LastEvent(inst, f) < RowStart(inst, f, n - 1) + f.width * f.cycle
    ensures n == 1 <==> LastEvent(inst, f) < inst.Tick(Fetch) + f.width * f.cycle
  {
    OneRowIffCompact(inst, f);
    if n > 1 {
      LastEventBounds(inst, f);
      BaseTickBelowFetch(inst, f);
      LastRow(LastEvent(inst, f) - BaseTick(inst, f), f.TimeWidth());
    }
  }
}
