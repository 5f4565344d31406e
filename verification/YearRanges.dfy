/** The copyright tool's year lists: a set of years as its maximal runs, and those runs as text. */
module YearRanges {
  import opened Text

  datatype Run = Run(first: nat, last: nat)

  ghost predicate Covers(runs: seq<Run>, y: int) {
    exists k :: 0 <= k < |runs| && runs[k].first <= y <= runs[k].last
  }

  /** Runs in increasing order with a gap before each next one. */
  ghost predicate Maximal(runs: seq<Run>) {
    && (forall k :: 0 <= k < |runs| ==> runs[k].first <= runs[k].last)
    && (forall j, k :: 0 <= j < k < |runs| ==> runs[j].last + 1 < runs[k].first)
  }

  ghost predicate SameYears(a: seq<Run>, b: seq<Run>) {
    forall y: int :: Covers(a, y) <==> Covers(b, y)
  }

  lemma CoveredAbove(runs: seq<Run>, y: int)
    requires Maximal(runs) && Covers(runs, y)
    ensures runs != [] && runs[0].first <= y
  {
  }

  lemma CoveredRest(runs: seq<Run>, y: int)
    requires Maximal(runs) && runs != []
    ensures Covers(runs[1..], y) <==> Covers(runs, y) && runs[0].last < y
  {
    if Covers(runs[1..], y) {
      var k :| 0 <= k < |runs[1..]| && runs[1..][k].first <= y <= runs[1..][k].last;
      assert runs[k + 1] == runs[1..][k];
    }
    if Covers(runs, y) && runs[0].last < y {
      var k :| 0 <= k < |runs| && runs[k].first <= y <= runs[k].last;
      assert runs[1..][k - 1] == runs[k];
    }
  }

  lemma FirstCovered(runs: seq<Run>)
    requires Maximal(runs) && runs != []
    ensures Covers(runs, runs[0].first) && Covers(runs, runs[0].last) && !Covers(runs, runs[0].last + 1)
  {
    assert runs[0].first <= runs[0].last;
  }

  lemma NotCoveredPastEnd(runs: seq<Run>, y: int)
    requires Maximal(runs) && runs != [] && runs[0].first <= y && !Covers(runs, y)
    ensures runs[0].last < y
  {
  }

  lemma FirstRunSame(a: seq<Run>, b: seq<Run>)
    requires Maximal(a) && Maximal(b) && SameYears(a, b) && a != [] && b != []
    ensures a[0] == b[0]
  {
    FirstCovered(a);
    FirstCovered(b);
    CoveredAbove(b, a[0].first);
    CoveredAbove(a, b[0].first);
    assert !Covers(b, a[0].last + 1) && !Covers(a, b[0].last + 1);
    NotCoveredPastEnd(b, a[0].last + 1);
    NotCoveredPastEnd(a, b[0].last + 1);
  }

  lemma RestSame(a: seq<Run>, b: seq<Run>)
    requires Maximal(a) && Maximal(b) && SameYears(a, b) && a != [] && b != [] && a[0] == b[0]
    ensures SameYears(a[1..], b[1..])
  {
    forall y: int ensures Covers(a[1..], y) <==> Covers(b[1..], y) {
      CoveredRest(a, y);
      CoveredRest(b, y);
    }
  }

  /** A set of years has only one list of maximal runs. */
  lemma {:induction false} RunsUnique(a: seq<Run>, b: seq<Run>)
    requires Maximal(a) && Maximal(b) && SameYears(a, b)
    ensures a == b
  {
    if a != [] {
      FirstCovered(a);
    }
    if b != [] {
      FirstCovered(b);
    }
    if a != [] && b != [] {
      FirstRunSame(a, b);
      RestSame(a, b);
      RunsUnique(a[1..], b[1..]);
      assert a == [a[0]] + a[1..] && b == [b[0]] + b[1..];
    }
  }

  // ---------- printing ----------

  function Piece(r: Run): string {
    if r.first == r.last then Decimal(r.first) else Decimal(r.first) + "-" + Decimal(r.last)
  }

  function Pieces(runs: seq<Run>): (p: seq<string>)
    ensures |p| == |runs| && forall k :: 0 <= k < |runs| ==> p[k] == Piece(runs[k])
  {
    seq(|runs|, k requires 0 <= k < |runs| => Piece(runs[k]))
  }

  ghost predicate Increasing(dates: seq<nat>) {
    forall i, j :: 0 <= i < j < |dates| ==> dates[i] < dates[j]
  }

  ghost predicate CoversExactly(runs: seq<Run>, dates: seq<nat>) {
    forall y: int :: Covers(runs, y) <==> y in dates
  }

  lemma GrowsMaximal(runs: seq<Run>, first: nat, last: nat)
    requires Maximal(runs + [Run(first, last)])
    ensures Maximal(runs + [Run(first, last + 1)])
  {
    var a, b := runs + [Run(first, last)], runs + [Run(first, last + 1)];
    assert forall k :: 0 <= k < |b| ==> b[k].first == a[k].first && (k < |runs| ==> b[k] == a[k]);
    assert a[|runs|] == Run(first, last);
  }

  lemma StartsMaximal(runs: seq<Run>, year: nat)
    requires Maximal(runs) && (runs != [] ==> runs[|runs| - 1].last + 1 < year)
    ensures Maximal(runs + [Run(year, year)])
  {
    var b := runs + [Run(year, year)];
    assert forall k :: 0 <= k < |runs| ==> b[k] == runs[k];
    forall k | 0 <= k < |runs| ensures runs[k].last + 1 < year {
      assert k < |runs| - 1 ==> runs[k].last + 1 < runs[|runs| - 1].first;
    }
  }

  /** The run at the end grows by the next year. */
  lemma RunGrows(runs: seq<Run>, first: nat, last: nat, dates: seq<nat>)
    requires CoversExactly(runs + [Run(first, last)], dates) && first <= last
    ensures CoversExactly(runs + [Run(first, last + 1)], dates + [last + 1])
  {
    var a, b := runs + [Run(first, last)], runs + [Run(first, last + 1)];
    forall y: int ensures Covers(b, y) <==> y in dates + [last + 1] {
      if Covers(b, y) {
        var k :| 0 <= k < |b| && b[k].first <= y <= b[k].last;
        assert y != last + 1 ==> a[k].first <= y <= a[k].last;
      }
      if Covers(a, y) {
        var k :| 0 <= k < |a| && a[k].first <= y <= a[k].last;
        assert b[k].first <= y <= b[k].last;
      }
      assert b[|runs|] == Run(first, last + 1);
    }
  }

  /** A new run starts at the next year. */
  lemma RunStarts(runs: seq<Run>, year: nat, dates: seq<nat>)
    requires CoversExactly(runs, dates)
    ensures CoversExactly(runs + [Run(year, year)], dates + [year])
  {
    var b := runs + [Run(year, year)];
    forall y: int ensures Covers(b, y) <==> y in dates + [year] {
      if Covers(b, y) {
        var k :| 0 <= k < |b| && b[k].first <= y <= b[k].last;
        assert k < |runs| ==> runs[k].first <= y <= runs[k].last;
      }
      if Covers(runs, y) {
        var k :| 0 <= k < |runs| && runs[k].first <= y <= runs[k].last;
        assert b[k] == runs[k];
      }
      assert b[|runs|] == Run(year, year);
    }
  }

  /** The maximal runs of a sorted list of years. */
  ghost predicate RunsOf(runs: seq<Run>, dates: seq<nat>) {
    Maximal(runs) && CoversExactly(runs, dates)
  }

  lemma GrowsExact(runs: seq<Run>, first: nat, second: nat, dates: seq<nat>, i: nat)
    requires i < |dates| && RunsOf(runs + [Run(first, second)], dates[..i]) && first <= second && dates[i] == second + 1
    ensures RunsOf(runs + [Run(first, dates[i])], dates[..i + 1])
  {
    RunGrows(runs, first, second, dates[..i]);
    GrowsMaximal(runs, first, second);
    assert dates[..i + 1] == dates[..i] + [dates[i]];
  }

  lemma StartsExact(runs: seq<Run>, dates: seq<nat>, i: nat)
    requires i < |dates| && RunsOf(runs, dates[..i]) && (runs != [] ==> runs[|runs| - 1].last + 1 < dates[i])
    ensures RunsOf(runs + [Run(dates[i], dates[i])], dates[..i + 1])
  {
    RunStarts(runs, dates[i], dates[..i]);
    StartsMaximal(runs, dates[i]);
    assert dates[..i + 1] == dates[..i] + [dates[i]];
  }

  /** The sorted years, taken from the front one by one. */
  method DateStr(dates: seq<nat>) returns (text: string, ghost runs: seq<Run>)
    requires dates != [] && Increasing(dates)
    ensures RunsOf(runs, dates)
    ensures text == Join(Pieces(runs), ',')
  {
    var output: seq<string> := [];
    var first, second := dates[0], dates[0];
    runs := [];
    StartsExact(runs, dates, 0);
    for i := 1 to |dates|
      invariant second == dates[i - 1] && first <= second
      invariant RunsOf(runs + [Run(first, second)], dates[..i])
      invariant output == Pieces(runs)
    {
      var next := dates[i];
      if next == second + 1 {
        GrowsExact(runs, first, second, dates, i);
        second := next;
      } else {
        StartsExact(runs + [Run(first, second)], dates, i);
        output, runs := AddOutput(output, runs, first, second);
        first, second := next, next;
      }
    }
    assert dates[..|dates|] == dates;
    output, runs := AddOutput(output, runs, first, second);
    text := Join(output, ',');
  }

  method AddOutput(output: seq<string>, ghost runs: seq<Run>, first: nat, second: nat)
    returns (r: seq<string>, ghost more: seq<Run>)
    requires output == Pieces(runs)
    ensures more == runs + [Run(first, second)] && r == Pieces(more)
  {
    more := runs + [Run(first, second)];
    if first == second {
      r := output + [Decimal(first)];
    } else {
      r := output + [Decimal(first) + "-" + Decimal(second)];
    }
    assert forall k :: 0 <= k < |runs| ==> more[k] == runs[k];
  }
}
