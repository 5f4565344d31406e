/**
 What the checkpoint driver guarantees for every guest: the ticks of the checkpoints, the limits it
 keeps, exactly when the whole planned series is taken, and which checkpoint a restore selects.
 */
module CheckpointSeries {
  import opened Arith
  import opened Text
  import opened StableSorting
  import opened CheckpointDriver

  // ---------- safety ----------

  /** The tick `k` periods after `at`. */
  function After(at: int, period: nat, k: nat): (t: int)
    ensures t >= at
    decreases k
  {
    if k == 0 then at else After(at + period, period, k - 1)
  }

  lemma {:induction false} AfterIs(at: int, period: nat, k: nat)
    ensures After(at, period, k) == at + k * period
    decreases k
  {
    if k > 0 {
      AfterIs(at + period, period, k - 1);
      assert (k - 1) * period + period == k * period;
    }
  }

  /** One tick per period, the first one period after `at`, none beyond the limit. */
  predicate EveryPeriod(ticks: seq<int>, at: int, p: Plan) {
    ticks == [] || (ticks[0] == at + p.period <= p.maxTick && EveryPeriod(ticks[1..], at + p.period, p))
  }

  lemma {:induction false} EveryPeriodAt(ticks: seq<int>, at: int, p: Plan, k: nat)
    requires EveryPeriod(ticks, at, p) && k < |ticks|
    ensures ticks[k] == at + (k + 1) * p.period <= p.maxTick
    decreases k
  {
    if k > 0 {
      EveryPeriodAt(ticks[1..], at + p.period, p, k - 1);
      assert k * p.period + p.period == (k + 1) * p.period;
    }
  }

  /** The three ways a period can go: no checkpoint, a last one, or one and the series goes on. */
  lemma SeriesCases(p: Plan, st: State, left: int)
    requires Pending(st) && left > 0 && st.now + p.period <= p.maxTick
    ensures var leg, ticks := RunLeg(st, st.now + p.period), Series(p, st, left).ticks;
            && (!leg.end.cause.Limit? ==> ticks == [])
            && (leg.end.cause.Limit? && !leg.first.Limit? ==> ticks == [st.now + p.period])
            && (leg.first.Limit? ==>
                  && leg.end == Stop(State(st.now + p.period, st.events), Limit)
                  && ticks == [st.now + p.period] + Series(p, State(st.now + p.period, st.events), left - 1).ticks)
  {
  }

  lemma {:induction false} SeriesTicks(p: Plan, st: State, left: int)
    requires Pending(st) && st.now <= p.maxTick
    ensures EveryPeriod(Series(p, st, left).ticks, st.now, p)
    decreases left
  {
    if left > 0 && st.now + p.period <= p.maxTick {
      SeriesCases(p, st, left);
      var ticks := Series(p, st, left).ticks;
      if RunLeg(st, st.now + p.period).first.Limit? {
        var next := State(st.now + p.period, st.events);
        SeriesTicks(p, next, left - 1);
        assert ticks[1..] == Series(p, next, left - 1).ticks;
      } else if ticks != [] {
        assert ticks[1..] == [];
      }
    }
  }

  lemma {:induction false} SeriesCount(p: Plan, st: State, left: int)
    requires Pending(st) && st.now <= p.maxTick
    ensures |Series(p, st, left).ticks| <= if left >= 0 then left else 0
    decreases left
  {
    if left > 0 && st.now + p.period <= p.maxTick {
      SeriesCases(p, st, left);
      if RunLeg(st, st.now + p.period).first.Limit? {
        SeriesCount(p, State(st.now + p.period, st.events), left - 1);
      }
    }
  }

  /** The first checkpoint, then one every period. */
  lemma FirstAndRest(p: Plan, ticks: seq<int>, rest: seq<int>)
    requires ticks == [p.when_] + rest && EveryPeriod(rest, p.when_, p) && p.when_ <= p.maxTick
    ensures forall k :: 0 <= k < |ticks| ==> ticks[k] == p.At(k) <= p.maxTick
  {
    forall k | 0 <= k < |ticks|
      ensures ticks[k] == p.At(k) <= p.maxTick
    {
      if k > 0 {
        EveryPeriodAt(rest, p.when_, p, k - 1);
      }
    }
  }

  /**
   Whatever the guest does, checkpoint `k` is taken at exactly `when + k * period`, no more than asked
   for are taken (but always room for one), and neither they nor the simulation pass `maxTick`.
   */
  lemma DriveSafe(p: Plan, st: State)
    requires Pending(st) && st.now <= p.when_ <= p.maxTick
    ensures var r := Drive(p, st);
            && (forall k :: 0 <= k < |r.ticks| ==> r.ticks[k] == p.At(k) <= p.maxTick)
            && (|r.ticks| <= 1 || |r.ticks| <= p.maxCheckpoints)
            && r.st.now <= p.maxTick
  {
    DriveOnTime(p, st, Drive(p, st).ticks);
    var s := SkipTo(st, p.when_);
    if s.cause.Limit? {
      SeriesCount(p, s.st, p.maxCheckpoints - 1);
    }
  }

  lemma DriveOnTime(p: Plan, st: State, ticks: seq<int>)
    requires Pending(st) && st.now <= p.when_ <= p.maxTick && ticks == Drive(p, st).ticks
    ensures forall k :: 0 <= k < |ticks| ==> ticks[k] == p.At(k) <= p.maxTick
  {
    var s := SkipTo(st, p.when_);
    if s.cause.Limit? {
      SeriesTicks(p, s.st, p.maxCheckpoints - 1);
      FirstAndRest(p, ticks, Series(p, s.st, p.maxCheckpoints - 1).ticks);
    }
  }

  // ---------- exactly when the whole series is taken ----------

  /** How many further checkpoints the options ask for after one at tick `at`. */
  function PlannedAfter(p: Plan, at: int, left: int): nat
    decreases left
  {
    if left <= 0 || at + p.period > p.maxTick then 0 else 1 + PlannedAfter(p, at + p.period, left - 1)
  }

  function Planned(p: Plan): nat { 1 + PlannedAfter(p, p.when_, p.maxCheckpoints - 1) }

  lemma InterruptsMono(e: Event, a: int, b: int)
    requires a <= b && Interrupts(e, a)
    ensures Interrupts(e, b)
  {
  }

  /** No exit other than a guest checkpoint happens before `target`. */
  ghost predicate NoExit(events: seq<Event>, target: int) {
    forall i :: 0 <= i < |events| && events[i].cause.OtherExit? ==> !Interrupts(events[i], target)
  }

  ghost predicate NoneBefore(events: seq<Event>, target: int) {
    forall i :: 0 <= i < |events| ==> !Interrupts(events[i], target)
  }

  lemma {:induction false} HeadDecides(events: seq<Event>, target: int)
    requires Ordered(events) && events != [] && !Interrupts(events[0], target)
    ensures NoneBefore(events, target)
  {
    if |events| > 1 {
      HeadDecides(events[1..], target);
      assert forall i :: 0 < i < |events| ==> events[i] == events[1..][i - 1];
    }
  }

  /** Skipping guest checkpoints reaches the target exactly if no other exit comes first; events before it are gone. */
  lemma {:induction false} SkipToExact(st: State, target: int) returns (m: nat)
    requires Pending(st) && st.now <= target
    ensures SkipTo(st, target).cause.Limit? <==> NoExit(st.events, target)
    ensures SkipTo(st, target).cause.Limit? ==>
              && m <= |st.events| && SkipTo(st, target).st.events == st.events[m..]
              && (forall i :: 0 <= i < m ==> Interrupts(st.events[i], target)) && NoneBefore(st.events[m..], target)
    decreases |st.events|
  {
    m := 0;
    if st.events != [] {
      var e, rest := st.events[0], st.events[1..];
      if !Interrupts(e, target) {
        HeadDecides(st.events, target);
      } else if e.cause.GuestCheckpoint? {
        m := SkipToExact(RunTo(st, target).st, target);
        NoExitTail(st.events, target);
        if SkipTo(st, target).cause.Limit? {
          assert st.events[m + 1..] == rest[m..];
          assert forall i :: 0 < i < m + 1 ==> st.events[i] == rest[i - 1];
          m := m + 1;
        }
      }
    }
  }

  lemma NoExitTail(events: seq<Event>, target: int)
    requires events != [] && events[0].cause.GuestCheckpoint?
    ensures NoExit(events, target) <==> NoExit(events[1..], target)
  {
    forall i | 0 < i < |events|
      ensures events[i] == events[1..][i - 1]
    {
    }
    if NoExit(events[1..], target) {
      forall i | 0 <= i < |events| && events[i].cause.OtherExit?
        ensures !Interrupts(events[i], target)
      {
        assert events[i] == events[1..][i - 1];
      }
    }
  }

  /** What the events must leave alone for the next `n` checkpoints to be taken. */
  ghost predicate Clear(p: Plan, st: State, n: nat) {
    && NoExit(st.events, After(st.now, p.period, n))
    && (n >= 2 ==> NoneBefore(st.events, After(st.now, p.period, n - 1)))
  }

  /** A leg that a guest checkpoint or an exit interrupts is the last one. */
  lemma InterruptedLeg(p: Plan, st: State, n: nat)
    requires Pending(st) && n >= 1 && st.events != [] && Interrupts(st.events[0], st.now + p.period)
    ensures (n == 1 && RunLeg(st, st.now + p.period).end.cause.Limit?) <==> Clear(p, st, n)
  {
    var target, e := st.now + p.period, st.events[0];
    assert After(st.now, p.period, n) == After(target, p.period, n - 1);
    InterruptsMono(e, target, After(st.now, p.period, n));
    if n >= 2 {
      assert After(st.now, p.period, n - 1) == After(target, p.period, n - 2);
      InterruptsMono(e, target, After(st.now, p.period, n - 1));
    } else if e.cause.GuestCheckpoint? {
      var m := SkipToExact(RunTo(st, target).st, target);
      NoExitTail(st.events, target);
    }
  }

  lemma ClearOfNone(p: Plan, st: State)
    requires NoneBefore(st.events, st.now)
    ensures Clear(p, st, 0)
  {
  }

  lemma ClearShift(p: Plan, st: State, n: nat)
    requires n >= 1 && NoneBefore(st.events, st.now + p.period)
    ensures Clear(p, st, n) <==> Clear(p, State(st.now + p.period, st.events), n - 1)
  {
    assert After(st.now, p.period, n) == After(st.now + p.period, p.period, n - 1);
    if n >= 2 {
      assert After(st.now, p.period, n - 1) == After(st.now + p.period, p.period, n - 2);
    }
  }

  lemma {:induction false} SeriesBound(p: Plan, st: State, left: int)
    requires Pending(st) && st.now <= p.maxTick
    ensures |Series(p, st, left).ticks| <= PlannedAfter(p, st.now, left)
    decreases left
  {
    if left > 0 && st.now + p.period <= p.maxTick {
      SeriesCases(p, st, left);
      if RunLeg(st, st.now + p.period).first.Limit? {
        SeriesBound(p, State(st.now + p.period, st.events), left - 1);
      }
    }
  }

  lemma InterruptedSeries(p: Plan, st: State, left: int, n: nat)
    requires Pending(st) && left > 0 && st.now + p.period <= p.maxTick && n >= 1
    requires st.events != [] && Interrupts(st.events[0], st.now + p.period)
    ensures |Series(p, st, left).ticks| >= n <==> Clear(p, st, n)
  {
    SeriesCases(p, st, left);
    InterruptedLeg(p, st, n);
    assert !RunLeg(st, st.now + p.period).first.Limit?;
  }

  lemma {:induction false} SeriesExact(p: Plan, st: State, left: int, n: nat)
    requires Pending(st) && st.now <= p.maxTick && NoneBefore(st.events, st.now)
    requires n <= PlannedAfter(p, st.now, left)
    ensures |Series(p, st, left).ticks| >= n <==> Clear(p, st, n)
    decreases left
  {
    if n == 0 {
      ClearOfNone(p, st);
    } else if st.events != [] && Interrupts(st.events[0], st.now + p.period) {
      InterruptedSeries(p, st, left, n);
    } else {
      SeriesGoesOn(p, st, left);
      SeriesExact(p, State(st.now + p.period, st.events), left - 1, n - 1);
      OneMoreExact(p, st, left, n);
    }
  }

  lemma OneMoreExact(p: Plan, st: State, left: int, n: nat)
    requires Pending(st) && left > 0 && n > 0 && st.now + p.period <= p.maxTick
    requires !(st.events != [] && Interrupts(st.events[0], st.now + p.period))
    requires var next := State(st.now + p.period, st.events);
             Pending(next) && (|Series(p, next, left - 1).ticks| >= n - 1 <==> Clear(p, next, n - 1))
    ensures |Series(p, st, left).ticks| >= n <==> Clear(p, st, n)
  {
    SeriesGoesOn(p, st, left);
    ClearShift(p, st, n);
  }

  lemma SeriesGoesOn(p: Plan, st: State, left: int)
    requires Pending(st) && left > 0 && st.now + p.period <= p.maxTick
    requires !(st.events != [] && Interrupts(st.events[0], st.now + p.period))
    ensures var next := State(st.now + p.period, st.events);
            && Pending(next) && NoneBefore(st.events, next.now)
            && |Series(p, st, left).ticks| == 1 + |Series(p, next, left - 1).ticks|
  {
    UninterruptedLeg(st, st.now + p.period);
    SeriesCases(p, st, left);
  }

  lemma UninterruptedLeg(st: State, target: int)
    requires Pending(st) && st.now <= target && !(st.events != [] && Interrupts(st.events[0], target))
    ensures RunLeg(st, target).first.Limit? && NoneBefore(st.events, target)
    ensures Pending(State(target, st.events))
  {
    if st.events != [] {
      HeadDecides(st.events, target);
    }
  }

  /**
   The events that leave the first `n` ticks alone: no exit before the last of them, and no guest checkpoint
   between the first and the last but one. A guest checkpoint ahead of the first tick, or in the last period,
   does no harm.
   */
  ghost predicate Undisturbed(p: Plan, events: seq<Event>, n: nat)
    requires n >= 1
  {
    && NoExit(events, p.At(n - 1))
    && (n >= 3 ==> forall i :: 0 <= i < |events| ==>
                     Interrupts(events[i], p.when_) || !Interrupts(events[i], p.At(n - 2)))
  }

  /**
   The option promises checkpoints "at tick M and every N ticks thereafter". The guest can cut that short, and
   this says exactly how: at least `n` of the planned checkpoints are taken if and only if the guest's events
   leave the first `n` ticks undisturbed. That fixes their number for every guest.
   */
  lemma SeriesLengthExact(p: Plan, st: State, n: nat)
    requires Pending(st) && st.now <= p.when_ <= p.maxTick && 1 <= n <= Planned(p)
    ensures |Drive(p, st).ticks| >= n <==> Undisturbed(p, st.events, n)
  {
    var s := SkipTo(st, p.when_);
    var m := SkipToExact(st, p.when_);
    if s.cause.Limit? {
      SeriesAfterFirst(p, st.events, m, s.st, n);
    } else {
      ExitDisturbs(p, st.events, n);
    }
  }

  lemma DriveBound(p: Plan, st: State)
    requires Pending(st) && st.now <= p.when_ <= p.maxTick
    ensures |Drive(p, st).ticks| <= Planned(p)
  {
    var s := SkipTo(st, p.when_);
    if s.cause.Limit? {
      SeriesBound(p, s.st, p.maxCheckpoints - 1);
    }
  }

  /** All planned checkpoints are taken if and only if the guest's events leave all their ticks undisturbed. */
  lemma FullSeriesExact(p: Plan, st: State)
    requires Pending(st) && st.now <= p.when_ <= p.maxTick
    ensures |Drive(p, st).ticks| <= Planned(p)
    ensures |Drive(p, st).ticks| == Planned(p) <==> Undisturbed(p, st.events, Planned(p))
  {
    DriveBound(p, st);
    SeriesLengthExact(p, st, Planned(p));
  }

  /** Once the first checkpoint has been taken at `when`. */
  lemma SeriesAfterFirst(p: Plan, events: seq<Event>, m: nat, st: State, n: nat)
    requires p.when_ <= p.maxTick && m <= |events| && st == State(p.when_, events[m..]) && Pending(st)
    requires forall i :: 0 <= i < m ==> Interrupts(events[i], p.when_) && !events[i].cause.OtherExit?
    requires NoneBefore(events[m..], p.when_) && 1 <= n <= Planned(p)
    ensures 1 + |Series(p, st, p.maxCheckpoints - 1).ticks| >= n <==> Undisturbed(p, events, n)
  {
    SeriesExact(p, st, p.maxCheckpoints - 1, n - 1);
    UndisturbedTail(p, events, m, st, n - 1);
  }

  lemma ExitDisturbs(p: Plan, events: seq<Event>, n: nat)
    requires !NoExit(events, p.when_) && n >= 1
    ensures !Undisturbed(p, events, n)
  {
    var i :| 0 <= i < |events| && events[i].cause.OtherExit? && Interrupts(events[i], p.when_);
    AfterIs(p.when_, p.period, n - 1);
    InterruptsMono(events[i], p.when_, p.At(n - 1));
  }

  lemma UndisturbedTail(p: Plan, events: seq<Event>, m: nat, st: State, n: nat)
    requires m <= |events| && st == State(p.when_, events[m..])
    requires forall i :: 0 <= i < m ==> Interrupts(events[i], p.when_) && !events[i].cause.OtherExit?
    requires NoneBefore(events[m..], p.when_)
    ensures Undisturbed(p, events, n + 1) <==> Clear(p, st, n)
  {
    AfterIs(p.when_, p.period, n);
    if n >= 1 {
      AfterIs(p.when_, p.period, n - 1);
    }
    assert forall i :: m <= i < |events| ==> events[i] == events[m..][i - m];
    if Undisturbed(p, events, n + 1) {
      assert Clear(p, st, n);
    }
    if Clear(p, st, n) {
      forall i | 0 <= i < |events|
        ensures events[i].cause.OtherExit? ==> !Interrupts(events[i], p.At(n))
        ensures n >= 2 ==> Interrupts(events[i], p.when_) || !Interrupts(events[i], p.At(n - 1))
      {
        if i >= m {
          assert events[i] == events[m..][i - m];
        }
      }
    }
  }

  /** For instance: one guest checkpoint in the first period, and three of five checkpoints are lost. */
  lemma GuestCheckpointEndsSeries()
    ensures var p, st := Plan(10, 10, 100, 5), State(0, [Event(15, GuestCheckpoint, true)]);
            Pending(st) && Planned(p) == 5 && Drive(p, st).ticks == [10, 20]
  {
    var p, st := Plan(10, 10, 100, 5), State(0, [Event(15, GuestCheckpoint, true)]);
    var st1 := State(10, st.events);
    assert SkipTo(st, 10) == Stop(st1, Limit);
    assert RunTo(st1, 20) == Stop(State(15, []), GuestCheckpoint);
    assert SkipTo(State(15, []), 20) == Stop(State(20, []), Limit);
    assert Series(p, st1, 4).ticks == [20];
    assert PlannedAfter(p, 50, 0) == 0;
    assert PlannedAfter(p, 30, 2) == 2;
  }

  // ---------- restoring ----------

  function DigitPrefix(s: string): (r: string)
    ensures forall i :: 0 <= i < |r| ==> IsDigit(r[i])
  {
    if s != [] && IsDigit(s[0]) then [s[0]] + DigitPrefix(s[1..]) else []
  }

  /** The digits behind "cpt." that a directory name starts with, if there are any. */
  function CptNumber(dir: string): Option<string> {
    if |dir| < 4 || dir[..4] != "cpt." then None
    else if DigitPrefix(dir[4..]) == [] then None
    else Some(DigitPrefix(dir[4..]))
  }

  lemma {:induction false} DigitPrefixExact(s: string)
    ensures DigitPrefix(s) <= s
    ensures |DigitPrefix(s)| < |s| ==> !IsDigit(s[|DigitPrefix(s)|])
  {
    if s != [] && IsDigit(s[0]) {
      DigitPrefixExact(s[1..]);
      assert s == [s[0]] + s[1..];
    }
  }

  /** A name matches exactly if a digit follows "cpt.", and its number is all digits up to the first other character. */
  lemma CptNumberExact(dir: string)
    ensures CptNumber(dir).Some? <==> |dir| >= 5 && dir[..4] == "cpt." && IsDigit(dir[4])
    ensures CptNumber(dir).Some? ==>
              var d := CptNumber(dir).value;
              && AllDigits(d) && 4 + |d| <= |dir| && dir[4..4 + |d|] == d
              && (4 + |d| < |dir| ==> !IsDigit(dir[4 + |d|]))
  {
    if |dir| >= 4 {
      var s := dir[4..];
      DigitPrefixExact(s);
      assert |dir| >= 5 ==> s[0] == dir[4];
      assert dir[4..4 + |DigitPrefix(s)|] == s[..|DigitPrefix(s)|];
    }
  }

  function Matches(dirs: seq<string>): seq<string> {
    if dirs == [] then []
    else
      var init, n := Matches(dirs[..|dirs| - 1]), CptNumber(dirs[|dirs| - 1]);
      if n.Some? then init + [n.value] else init
  }

  function Number(s: string): int { if AllDigits(s) then Value(s) else 0 }

  datatype Choice = Choice(startTick: int, dir: string) | NotFound

  /** The chosen entry of the sorted list; an index below zero counts from its end. */
  function Choose(cpts: seq<string>, num: int): Choice {
    if num > |cpts| || num + |cpts| < 1 then NotFound
    else
      var i := if num >= 1 then num - 1 else num - 1 + |cpts|;
      Choice(Number(cpts[i]), "cpt." + cpts[i])
  }

  /** Picks checkpoint `num` of a directory, counted in the order of the ticks in the names. */
  method FindCptDir(dirs: seq<string>, num: int) returns (c: Choice)
    ensures c == Choose(StableSort(Matches(dirs), Number), num)
  {
    var cpts := [];
    for k := 0 to |dirs|
      invariant cpts == Matches(dirs[..k])
    {
      assert dirs[..k + 1][..k] == dirs[..k];
      var n := CptNumber(dirs[k]);
      if n.Some? {
        cpts := cpts + [n.value];
      }
    }
    assert dirs[..|dirs|] == dirs;
    cpts := StableSort(cpts, Number);
    if num > |cpts| || num + |cpts| < 1 {
      return NotFound;
    }
    var i := if num >= 1 then num - 1 else num - 1 + |cpts|;
    c := Choice(Number(cpts[i]), "cpt." + cpts[i]);
  }

  function Names(ticks: seq<int>): seq<string>
    requires forall k :: 0 <= k < |ticks| ==> ticks[k] >= 0
  {
    seq(|ticks|, k requires 0 <= k < |ticks| => Decimal(ticks[k]))
  }

  lemma NumberDecimal(n: nat)
    ensures Number(Decimal(n)) == n
  {
    ValueDecimal(n);
  }

  lemma {:induction false} DigitsAreTheirPrefix(s: string)
    requires forall i :: 0 <= i < |s| ==> IsDigit(s[i])
    ensures DigitPrefix(s) == s
  {
    if s != [] {
      DigitsAreTheirPrefix(s[1..]);
      assert s == [s[0]] + s[1..];
    }
  }

  /** A checkpoint's own directory is recognised as such. */
  lemma OwnNameMatches(n: nat)
    ensures CptNumber("cpt." + Decimal(n)) == Some(Decimal(n))
  {
    var dir := "cpt." + Decimal(n);
    assert dir[..4] == "cpt." && dir[4..] == Decimal(n);
    DigitsAreTheirPrefix(Decimal(n));
  }

  /** The directories that checkpoints at these ticks are written to. */
  function Dirs(ticks: seq<int>): seq<string>
    requires forall k :: 0 <= k < |ticks| ==> ticks[k] >= 0
  {
    seq(|ticks|, k requires 0 <= k < |ticks| => "cpt." + Decimal(ticks[k]))
  }

  lemma {:induction false} DirsMatch(ticks: seq<int>)
    requires forall k :: 0 <= k < |ticks| ==> ticks[k] >= 0
    ensures Matches(Dirs(ticks)) == Names(ticks)
  {
    if ticks != [] {
      var init, last := ticks[..|ticks| - 1], ticks[|ticks| - 1];
      DirsMatch(init);
      OwnNameMatches(last);
      assert Dirs(ticks)[..|ticks| - 1] == Dirs(init);
      assert Names(ticks) == Names(init) + [Decimal(last)];
    }
  }

  lemma {:induction false} MatchesConcat(a: seq<string>, b: seq<string>)
    ensures Matches(a + b) == Matches(a) + Matches(b)
  {
    if b == [] {
      assert a + b == a;
    } else {
      assert (a + b)[..|a + b| - 1] == a + b[..|b| - 1];
      MatchesConcat(a, b[..|b| - 1]);
    }
  }

  /** One directory more or less, wherever it is listed. */
  lemma MatchesWithout(a: seq<string>, dir: string, b: seq<string>)
    ensures multiset(Matches(a + [dir] + b)) == multiset(Matches(a + b)) + multiset(Matches([dir]))
  {
    MatchesConcat(a + [dir], b);
    MatchesConcat(a, [dir]);
    MatchesConcat(a, b);
  }

  lemma SameWithout(rest: seq<string>, dir: string, a: seq<string>, b: seq<string>)
    requires multiset(rest + [dir]) == multiset(a + [dir] + b)
    ensures multiset(rest) == multiset(a + b)
  {
    assert multiset(rest) == multiset(rest + [dir]) - multiset{dir};
    assert multiset(a + b) == multiset(a + [dir] + b) - multiset{dir};
  }

  /** The matches do not depend on how the directory is listed. */
  lemma {:induction false} MatchesPermuted(a: seq<string>, b: seq<string>)
    requires multiset(a) == multiset(b)
    ensures multiset(Matches(a)) == multiset(Matches(b))
    decreases |a|
  {
    if a == [] {
      assert |multiset(b)| == 0;
    } else {
      var rest, dir := a[..|a| - 1], a[|a| - 1];
      assert a == rest + [dir] && rest + [dir] + [] == a && rest + [] == rest;
      assert dir in multiset(b);
      var i :| 0 <= i < |b| && b[i] == dir;
      assert b == b[..i] + [dir] + b[i + 1..];
      SameWithout(rest, dir, b[..i], b[i + 1..]);
      MatchesPermuted(rest, b[..i] + b[i + 1..]);
      MatchesWithout(rest, dir, []);
      MatchesWithout(b[..i], dir, b[i + 1..]);
    }
  }

  /** What the pattern finds in the directory afterwards: the names of the series, in some order. */
  lemma ListedNames(ticks: seq<int>, dirs: seq<string>, others: seq<string>)
    requires forall k :: 0 <= k < |ticks| ==> ticks[k] >= 0
    requires multiset(dirs) == multiset(Dirs(ticks)) + multiset(others) && Matches(others) == []
    ensures multiset(Matches(dirs)) == multiset(Names(ticks))
  {
    MatchesPermuted(dirs, Dirs(ticks) + others);
    MatchesConcat(Dirs(ticks), others);
    DirsMatch(ticks);
    assert Names(ticks) + [] == Names(ticks);
  }

  lemma TicksIncrease(p: Plan, j: nat, k: nat)
    requires j < k && p.period > 0
    ensures p.At(j) < p.At(k)
  {
    MulMono(j + 1, k, p.period);
    assert (j + 1) * p.period == j * p.period + p.period;
  }

  /** What is chosen from the names of a series: counted from its start, or back from its end if not positive. */
  lemma ChosenTick(p: Plan, ticks: seq<int>, listed: seq<string>, num: int)
    requires p.period > 0 && forall k :: 0 <= k < |ticks| ==> ticks[k] == p.At(k) && ticks[k] >= 0
    requires multiset(listed) == multiset(Names(ticks))
    ensures var n, c := |ticks|, Choose(StableSort(listed, Number), num);
            var i := if num >= 1 then num - 1 else n - 1 + num;
            if 0 <= i < n then c == Choice(ticks[i], "cpt." + Decimal(ticks[i])) else c == NotFound
  {
    NamesIncrease(p, ticks);
    SortedNames(listed, Names(ticks));
    forall k | 0 <= k < |ticks| ensures Number(Names(ticks)[k]) == ticks[k] {
      NumberDecimal(ticks[k]);
    }
  }

  /** The names of a series are in the order of their ticks. */
  lemma NamesIncrease(p: Plan, ticks: seq<int>)
    requires p.period > 0 && forall k :: 0 <= k < |ticks| ==> ticks[k] == p.At(k) && ticks[k] >= 0
    ensures StrictlySorted(Names(ticks), Number)
  {
    var names := Names(ticks);
    forall j, k | 0 <= j < k < |names| ensures Number(names[j]) < Number(names[k]) {
      NumberDecimal(ticks[j]);
      NumberDecimal(ticks[k]);
      TicksIncrease(p, j, k);
    }
  }

  /** However the directory is listed, sorting by number finds the one order there is. */
  lemma SortedNames(listed: seq<string>, names: seq<string>)
    requires StrictlySorted(names, Number) && multiset(listed) == multiset(names)
    ensures StableSort(listed, Number) == names
  {
    SortSorted(listed, Number);
    SortMultiset(listed, Number);
    StrictlySortedUnique(names, StableSort(listed, Number), Number);
  }
}
