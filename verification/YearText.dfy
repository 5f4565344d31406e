/** Reading the copyright tool's year lists, and exactly when they read back as the years they were printed from. */
module YearText {
  import opened Text
  import opened YearRanges

  // ---------- reading ----------

  /** A range at the start of the text: four digits, a dash with space around it, four digits. */
  function MatchRange(d: string): Option<(nat, nat)> {
    if |d| >= 4 && AllDigits(d[..4]) then
      var dash := StripLeft(d[4..]);
      if dash != [] && dash[0] == '-' then
        var rest := StripLeft(dash[1..]);
        if |rest| >= 4 && AllDigits(rest[..4]) then Some((Value(d[..4]), Value(rest[..4]))) else None
      else None
    else None
  }

  /** `d` begins with four digits, a dash with any space around it, and four digits. */
  ghost predicate IsRange(d: string, f: string, before: string, after: string, l: string, rest: string) {
    && d == f + (before + ("-" + (after + (l + rest))))
    && |f| == 4 && AllDigits(f) && AllSpace(before) && AllSpace(after) && |l| == 4 && AllDigits(l)
  }

  /** What matches is such a range. */
  lemma MatchShape(d: string) returns (f: string, before: string, after: string, l: string, rest: string)
    requires MatchRange(d).Some?
    ensures IsRange(d, f, before, after, l, rest) && MatchRange(d).value == (Value(f), Value(l))
  {
    f := d[..4];
    before := StripLeftExact(d[4..]);
    var dash := StripLeft(d[4..]);
    after := StripLeftExact(dash[1..]);
    var tail := StripLeft(dash[1..]);
    l, rest := tail[..4], tail[4..];
    assert dash == "-" + dash[1..] && tail == l + rest && d == f + d[4..];
  }

  /** And every such range matches. */
  lemma MatchOf(d: string, f: string, before: string, after: string, l: string, rest: string)
    requires IsRange(d, f, before, after, l, rest)
    ensures MatchRange(d) == Some((Value(f), Value(l)))
  {
    var tail := l + rest;
    var dash := "-" + (after + tail);
    assert d[..4] == f && d[4..] == before + dash;
    StripSpaces(before, dash);
    assert dash[1..] == after + tail && tail[0] == l[0] && tail[..4] == l;
    StripSpaces(after, tail);
  }

  /** All years from `first` to `last`. */
  function Span(first: int, last: int): (r: set<int>)
    ensures forall y :: y in r <==> first <= y <= last
    decreases last - first
  {
    if last < first then {} else Span(first, last - 1) + {last}
  }

  /** The years of one item: a range, else a number, else nothing. */
  function PieceYears(d: string): set<int> {
    match MatchRange(d)
    case Some(r) => Span(r.0, r.1)
    case None => match ParseInt(d) case Some(n) => {n} case None => {}
  }

  function AllYears(pieces: seq<string>): set<int> {
    if pieces == [] then {} else AllYears(pieces[..|pieces| - 1]) + PieceYears(Strip(pieces[|pieces| - 1]))
  }

  method AddRange(years: set<int>, first: nat, last: nat) returns (output: set<int>)
    ensures output == years + Span(first, last)
  {
    output := years;
    var i := first;
    while i < last + 1
      invariant output == years + Span(first, i - 1) && (i <= last + 1 || i == first)
    {
      output := output + {i};
      i := i + 1;
    }
  }

  method ProcessDates(text: string) returns (output: set<int>)
    ensures output == AllYears(Split(text, ','))
  {
    var dates := Split(text, ',');
    output := {};
    for i := 0 to |dates|
      invariant output == AllYears(dates[..i])
    {
      assert dates[..i + 1][..i] == dates[..i];
      var date := Strip(dates[i]);
      var m := MatchRange(date);
      if m.Some? {
        output := AddRange(output, m.value.0, m.value.1);
      } else {
        var n := ParseInt(date);
        if n.Some? {
          output := output + {n.value};
        }
      }
    }
    assert dates[..|dates|] == dates;
  }

  // ---------- one item ----------

  lemma ValueBound(s: string)
    requires |s| == 4 && forall i :: 0 <= i < |s| ==> IsDigit(s[i])
    ensures Value(s) <= 9999
  {
    assert s[..3][..2] == s[..2] && s[..2][..1] == s[..1] && s[..1][..0] == [];
    assert Value(s[..1]) == s[0] as int - '0' as int;
    assert Value(s[..2]) == Value(s[..1]) * 10 + (s[1] as int - '0' as int);
    assert Value(s[..3]) == Value(s[..2]) * 10 + (s[2] as int - '0' as int);
  }

  /** Four digits exactly for the numbers from 1000 to 9999. */
  lemma DecimalLength(n: nat)
    ensures |Decimal(n)| >= 4 <==> n >= 1000
    ensures |Decimal(n)| <= 4 <==> n <= 9999
  {
    var a, b, c := n / 10, n / 10 / 10, n / 10 / 10 / 10;
    assert n >= 10 ==> |Decimal(n)| == |Decimal(a)| + 1;
    assert a >= 10 ==> |Decimal(a)| == |Decimal(b)| + 1;
    assert b >= 10 ==> |Decimal(b)| == |Decimal(c)| + 1;
    assert c >= 10 ==> |Decimal(c)| == |Decimal(c / 10)| + 1;
    assert c < 10 ==> |Decimal(c)| == 1;
  }

  lemma SingleYear(y: nat)
    ensures PieceYears(Decimal(y)) == {y}
  {
    var d := Decimal(y);
    if |d| > 4 {
      assert d[4..][0] == d[4];
    }
    assert MatchRange(d).None?;
    ParseDecimal(y);
  }

  lemma ShortFirst(f: string, l: string)
    requires AllDigits(f) && AllDigits(l) && |f| < 4
    ensures MatchRange(f + "-" + l).None?
  {
    var d := f + "-" + l;
    assert d[|f|] == '-';
    if |d| >= 4 {
      assert d[..4][|f|] == '-';
    }
  }

  lemma LongFirst(f: string, l: string)
    requires AllDigits(f) && AllDigits(l) && |f| > 4
    ensures MatchRange(f + "-" + l).None?
  {
    var d := f + "-" + l;
    assert d[4..][0] == f[4];
    assert !IsSpace(f[4]) && f[4] != '-';
    assert StripLeft(d[4..]) == d[4..];
  }

  lemma FourFirst(f: string, l: string)
    requires AllDigits(f) && AllDigits(l) && |f| == 4
    ensures MatchRange(f + "-" + l).Some? <==> |l| >= 4
    ensures MatchRange(f + "-" + l).Some? ==> MatchRange(f + "-" + l).value == (Value(f), Value(l[..4]))
  {
    var d := f + "-" + l;
    assert d[..4] == f && d[4..] == "-" + l && d[4..][1..] == l;
    assert StripLeft(d[4..]) == d[4..];
    assert !IsSpace(l[0]) && StripLeft(l) == l;
  }

  /** What is read of a range with a dash: nothing unless the first year has four digits. */
  lemma RangeRead(first: nat, last: nat)
    ensures var d := Decimal(first) + "-" + Decimal(last);
            && ParseInt(d).None?
            && (MatchRange(d).Some? <==> 1000 <= first <= 9999 && 1000 <= last)
            && (MatchRange(d).Some? ==>
                  |Decimal(last)| >= 4 && MatchRange(d).value == (first, Value(Decimal(last)[..4])))
  {
    var f, l := Decimal(first), Decimal(last);
    DecimalLength(first);
    DecimalLength(last);
    RangeIsNoNumber(f, l);
    if |f| < 4 {
      ShortFirst(f, l);
    } else if |f| > 4 {
      LongFirst(f, l);
    } else {
      FourFirst(f, l);
      ValueDecimal(first);
    }
  }

  lemma RangeIsNoNumber(f: string, l: string)
    requires AllDigits(f) && AllDigits(l)
    ensures ParseInt(f + "-" + l).None?
  {
    var d := f + "-" + l;
    assert d[0] == f[0] && d[|f|] == '-';
    assert NoSpace(d);
    StripNothing(d);
  }

  /** An item reads back as its run exactly if the run is one year or lies within the four-digit years. */
  ghost predicate FourDigit(r: Run) {
    r.first == r.last || (1000 <= r.first && r.last <= 9999)
  }

  lemma PieceExact(r: Run)
    requires r.first <= r.last
    ensures forall y :: y in PieceYears(Piece(r)) ==> r.first <= y <= r.last
    ensures FourDigit(r) ==> forall y :: r.first <= y <= r.last ==> y in PieceYears(Piece(r))
    ensures !FourDigit(r) ==> r.last !in PieceYears(Piece(r))
  {
    if r.first == r.last {
      SingleYear(r.first);
    } else {
      RangeRead(r.first, r.last);
      DecimalLength(r.last);
      if 1000 <= r.last {
        ValueBound(Decimal(r.last)[..4]);
        if r.last <= 9999 {
          assert Decimal(r.last)[..4] == Decimal(r.last);
          ValueDecimal(r.last);
        }
      }
    }
  }

  // ---------- the whole text ----------

  lemma {:induction false} AllYearsMembers(pieces: seq<string>, y: int)
    ensures y in AllYears(pieces) <==> exists k :: 0 <= k < |pieces| && y in PieceYears(Strip(pieces[k]))
  {
    if pieces != [] {
      var n := |pieces| - 1;
      AllYearsMembers(pieces[..n], y);
      if y in AllYears(pieces[..n]) {
        var k :| 0 <= k < n && y in PieceYears(Strip(pieces[..n][k]));
        assert pieces[k] == pieces[..n][k];
      }
      if k :| 0 <= k < |pieces| && y in PieceYears(Strip(pieces[k])) {
        assert k < n ==> pieces[..n][k] == pieces[k];
      }
    }
  }

  lemma PiecePlain(r: Run)
    ensures ',' !in Piece(r) && Strip(Piece(r)) == Piece(r)
  {
    DecimalPlain(r.first);
    DecimalPlain(r.last);
    assert NoSpace(Piece(r));
    StripNothing(Piece(r));
  }

  /** The years read back from printed runs. */
  ghost function ReadBack(runs: seq<Run>): set<int> { AllYears(Split(Join(Pieces(runs), ','), ',')) }

  lemma ReadBackMembers(runs: seq<Run>, y: int)
    requires runs != []
    ensures y in ReadBack(runs) <==> exists k :: 0 <= k < |runs| && y in PieceYears(Piece(runs[k]))
  {
    var pieces := Pieces(runs);
    forall k | 0 <= k < |runs| ensures ',' !in pieces[k] && Strip(pieces[k]) == Piece(runs[k]) {
      PiecePlain(runs[k]);
    }
    SplitJoin(pieces, ',');
    AllYearsMembers(pieces, y);
    if k :| 0 <= k < |runs| && y in PieceYears(Piece(runs[k])) {
      assert Strip(pieces[k]) == Piece(runs[k]);
    }
  }

  lemma RunReadBack(runs: seq<Run>, y: int)
    requires runs != [] && Maximal(runs)
    ensures y in ReadBack(runs) ==> Covers(runs, y)
    ensures Covers(runs, y) && (forall k :: 0 <= k < |runs| ==> FourDigit(runs[k])) ==> y in ReadBack(runs)
  {
    ReadBackMembers(runs, y);
    if k :| 0 <= k < |runs| && y in PieceYears(Piece(runs[k])) {
      PieceExact(runs[k]);
    }
    if k :| 0 <= k < |runs| && runs[k].first <= y <= runs[k].last {
      PieceExact(runs[k]);
    }
  }

  /** The last year of a run that is too early or too late is lost: no other item brings it back. */
  lemma LastYearLost(runs: seq<Run>, k: nat)
    requires k < |runs| && Maximal(runs) && !FourDigit(runs[k])
    ensures Covers(runs, runs[k].last) && runs[k].last !in ReadBack(runs)
  {
    var y := runs[k].last;
    ReadBackMembers(runs, y);
    forall j | 0 <= j < |runs| ensures y !in PieceYears(Piece(runs[j])) {
      PieceExact(runs[j]);
      assert j < k ==> runs[j].last + 1 < runs[k].first;
      assert k < j ==> runs[k].last + 1 < runs[j].first;
    }
  }

  /** Consecutive years of the set have four digits each. */
  ghost predicate NeighboursFourDigit(dates: seq<nat>) {
    forall y :: y in dates && (y + 1) in dates ==> 1000 <= y && y + 1 <= 9999
  }

  lemma NeighboursOfRuns(runs: seq<Run>, dates: seq<nat>)
    requires RunsOf(runs, dates)
    ensures NeighboursFourDigit(dates) <==> forall k :: 0 <= k < |runs| ==> FourDigit(runs[k])
  {
    forall k | 0 <= k < |runs| && NeighboursFourDigit(dates) ensures FourDigit(runs[k]) {
      var r := runs[k];
      if r.first < r.last {
        assert Covers(runs, r.first) && Covers(runs, r.first + 1) && Covers(runs, r.last - 1) && Covers(runs, r.last);
        assert r.last - 1 in dates && (r.last - 1) + 1 in dates;
      }
    }
    if forall k :: 0 <= k < |runs| ==> FourDigit(runs[k]) {
      forall y | y in dates && (y + 1) in dates ensures 1000 <= y && y + 1 <= 9999 {
        assert Covers(runs, y) && Covers(runs, y + 1);
        NeighboursShareRun(runs, y);
      }
    }
  }

  lemma NeighboursShareRun(runs: seq<Run>, y: int)
    requires Maximal(runs) && Covers(runs, y) && Covers(runs, y + 1)
    ensures exists k :: 0 <= k < |runs| && runs[k].first <= y && y + 1 <= runs[k].last
  {
    var j :| 0 <= j < |runs| && runs[j].first <= y <= runs[j].last;
    var k :| 0 <= k < |runs| && runs[k].first <= y + 1 <= runs[k].last;
    assert j == k;
  }

  /**
   Printed years read back as the same set exactly if no two consecutive years in it reach outside the
   four-digit years; single years of any length always survive.
   */
  lemma ReadBackExact(runs: seq<Run>, dates: seq<nat>)
    requires dates != [] && RunsOf(runs, dates)
    ensures (forall y: int :: y in ReadBack(runs) <==> y in dates) <==> NeighboursFourDigit(dates)
  {
    assert Covers(runs, dates[0]);
    NeighboursOfRuns(runs, dates);
    if forall k :: 0 <= k < |runs| ==> FourDigit(runs[k]) {
      forall y: int ensures y in ReadBack(runs) <==> y in dates {
        RunReadBack(runs, y);
        assert Covers(runs, y) <==> y in dates;
      }
    } else {
      var k :| 0 <= k < |runs| && !FourDigit(runs[k]);
      LastYearLost(runs, k);
    }
  }

  // ---------- from the set of years ----------

  function Put(y: nat, dates: seq<nat>): seq<nat> {
    if dates == [] || y < dates[0] then [y] + dates else [dates[0]] + Put(y, dates[1..])
  }

  lemma {:induction false} PutMembers(y: nat, dates: seq<nat>)
    ensures forall x :: x in Put(y, dates) <==> x == y || x in dates
  {
    if dates != [] && y >= dates[0] {
      PutMembers(y, dates[1..]);
      assert dates == [dates[0]] + dates[1..];
    }
  }

  lemma FirstIncreasing(x: nat, r: seq<nat>)
    requires Increasing(r) && forall y :: y in r ==> x < y
    ensures Increasing([x] + r)
  {
    var s := [x] + r;
    forall i, j | 0 <= i < j < |s| ensures s[i] < s[j] {
      assert s[j] == r[j - 1] && r[j - 1] in r;
    }
  }

  lemma {:induction false} PutSorted(y: nat, dates: seq<nat>)
    requires Increasing(dates) && y !in dates
    ensures Increasing(Put(y, dates))
  {
    if dates == [] || y < dates[0] {
      assert forall i :: 0 < i < |dates| ==> dates[0] < dates[i];
      FirstIncreasing(y, dates);
    } else {
      PutSorted(y, dates[1..]);
      PutMembers(y, dates[1..]);
      FirstIncreasing(dates[0], Put(y, dates[1..]));
    }
  }

  method SortYears(years: set<nat>) returns (dates: seq<nat>)
    ensures Increasing(dates) && forall y :: y in dates <==> y in years
  {
    dates := [];
    var rest := years;
    while rest != {}
      invariant Increasing(dates) && rest <= years && forall y :: y in dates <==> y in years - rest
      decreases |rest|
    {
      var y :| y in rest;
      PutSorted(y, dates);
      PutMembers(y, dates);
      dates, rest := Put(y, dates), rest - {y};
    }
  }

  /** The text for a set of years, and what can be read back from it. */
  method PrintYears(years: set<nat>) returns (text: string)
    requires years != {}
    ensures (forall y: int :: y in AllYears(Split(text, ',')) <==> y in years) <==>
            (forall y :: y in years && (y + 1) in years ==> 1000 <= y && y + 1 <= 9999)
  {
    var dates := SortYears(years);
    ghost var some :| some in years;
    assert some in dates;
    ghost var runs;
    text, runs := DateStr(dates);
    ReadBackExact(runs, dates);
    forall y: int ensures y in ReadBack(runs) ==> y >= 0 {
      RunReadBack(runs, y);
    }
    assert AllYears(Split(text, ',')) == ReadBack(runs);
    assert NeighboursFourDigit(dates) <==> forall y :: y in years && (y + 1) in years ==> 1000 <= y && y + 1 <= 9999;
  }
}
