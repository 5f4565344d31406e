/**
 The checkpoint driver as it is called, with any first tick, period, last tick and number of checkpoints: when
 checkpoints are taken, how many, whether the call is refused, and where it leaves the simulator. Everything is
 said in terms of the arguments and the guest's events.
 */
module CheckpointCalls {
  import opened Arith
  import opened Text
  import opened StableSorting
  import opened CheckpointDriver
  import opened CheckpointSeries

  /** The event is served before a limit at `target`: it comes earlier, or on the same tick but first. */
  predicate Before(e: Event, target: int) { e.tick < target || (e.tick == target && e.first) }

  lemma BeforeInterrupts(e: Event, target: int)
    ensures Interrupts(e, target) <==> Before(e, target)
  {
  }

  datatype Call = Call(first: int, period: int, maxTick: int, maxCheckpoints: int) {
    /** `n` checkpoints are asked for: the first one always, others up to their number and the last tick. */
    predicate Asks(n: nat) {
      n <= 1 || (n <= maxCheckpoints && period >= 0 && first + (n - 1) * period <= maxTick)
    }

    function Result(st: State): Run
      requires Pending(st)
    {
      Script(first, period, maxTick, maxCheckpoints, st)
    }

    function Ticks(st: State): seq<int>
      requires Pending(st)
    {
      Result(st).drop.ticks
    }
  }

  /** No exit other than a guest checkpoint is served before a limit at `target`. */
  ghost predicate NoExitBefore(events: seq<Event>, target: int) {
    forall i :: 0 <= i < |events| && events[i].cause.OtherExit? ==> !Before(events[i], target)
  }

  /** An event falls between the two limits. */
  ghost predicate Between(events: seq<Event>, from: int, to: int) {
    exists i :: 0 <= i < |events| && !Before(events[i], from) && Before(events[i], to)
  }

  /**
   The guest leaves `n` checkpoints alone: no exit comes before the last of them, and no event at all between
   the first and the last but one.
   */
  ghost predicate Quiet(c: Call, events: seq<Event>, n: nat) {
    && NoExitBefore(events, c.first + (n - 1) * c.period)
    && (n >= 3 ==> !Between(events, c.first, c.first + (n - 2) * c.period))
  }

  lemma NoExitIs(events: seq<Event>, target: int)
    ensures NoExit(events, target) <==> NoExitBefore(events, target)
  {
  }

  // ---------- how many are asked for ----------

  lemma {:induction false} PlannedAfterExact(p: Plan, at: int, left: int, n: nat)
    ensures n <= PlannedAfter(p, at, left) <==> n == 0 || (n <= left && at + n * p.period <= p.maxTick)
    decreases n
  {
    if n > 0 {
      MulMono(1, n, p.period);
      assert (n - 1) * p.period + p.period == n * p.period;
      if left > 0 && at + p.period <= p.maxTick {
        PlannedAfterExact(p, at + p.period, left - 1, n - 1);
      }
    }
  }

  lemma PlannedExact(c: Call, n: nat)
    requires c.period >= 0 && c.first <= c.maxTick && n >= 1
    ensures n <= Planned(Plan(c.first, c.period, c.maxTick, c.maxCheckpoints)) <==> c.Asks(n)
  {
    var p := Plan(c.first, c.period, c.maxTick, c.maxCheckpoints);
    PlannedAfterExact(p, c.first, c.maxCheckpoints - 1, n - 1);
  }

  lemma QuietIs(c: Call, events: seq<Event>, n: nat)
    requires c.period >= 0 && n >= 1
    ensures Undisturbed(Plan(c.first, c.period, c.maxTick, c.maxCheckpoints), events, n) <==> Quiet(c, events, n)
  {
    NoExitIs(events, c.first + (n - 1) * c.period);
  }

  // ---------- the ticks ----------

  lemma CallCases(c: Call, st: State)
    requires Pending(st) && c.first >= st.now
    ensures var s, r := SkipTo(st, c.first), c.Result(st);
            var series := c.maxCheckpoints > 1 && c.period >= 0 && c.maxTick >= c.first;
            && (!s.cause.Limit? ==> r == Run(Drop([], s.st), false))
            && (s.cause.Limit? && !series ==> r == Run(Drop([c.first], s.st), c.maxCheckpoints > 1))
            && (s.cause.Limit? && series ==>
                  r == Run(Drive(Plan(c.first, c.period, c.maxTick, c.maxCheckpoints), st), false))
  {
  }

  /** Checkpoint `k` is at `first + k * period`, none but the first is behind the last tick, and none is too many. */
  lemma CallTicks(c: Call, st: State)
    requires Pending(st)
    ensures forall k :: 0 <= k < |c.Ticks(st)| ==> c.Ticks(st)[k] == c.first + k * c.period
    ensures forall k :: 0 < k < |c.Ticks(st)| ==> c.Ticks(st)[k] <= c.maxTick
    ensures |c.Ticks(st)| <= 1 || |c.Ticks(st)| <= c.maxCheckpoints
  {
    if c.first >= st.now {
      CallCases(c, st);
      if c.maxCheckpoints > 1 && c.period >= 0 && c.maxTick >= c.first {
        DriveSafe(Plan(c.first, c.period, c.maxTick, c.maxCheckpoints), st);
      }
    }
  }

  /** At least `n` checkpoints are taken if and only if as many are asked for and the guest leaves them alone. */
  lemma CallCount(c: Call, st: State, n: nat)
    requires Pending(st) && c.first >= st.now && n >= 1
    ensures |c.Ticks(st)| >= n <==> c.Asks(n) && Quiet(c, st.events, n)
  {
    CallCases(c, st);
    var m := SkipToExact(st, c.first);
    NoExitIs(st.events, c.first);
    if c.maxCheckpoints > 1 && c.period >= 0 && c.maxTick >= c.first {
      SeriesCounted(c, st, n);
    } else {
      OneAsked(c, n);
    }
  }

  lemma OneAsked(c: Call, n: nat)
    requires n >= 1 && !(c.maxCheckpoints > 1 && c.period >= 0 && c.maxTick >= c.first)
    ensures c.Asks(n) <==> n == 1
  {
    if n > 1 && c.period >= 0 {
      MulMono(0, n - 1, c.period);
    }
  }

  lemma SeriesCounted(c: Call, st: State, n: nat)
    requires Pending(st) && c.first >= st.now && n >= 1
    requires c.maxCheckpoints > 1 && c.period >= 0 && c.maxTick >= c.first
    ensures |Drive(Plan(c.first, c.period, c.maxTick, c.maxCheckpoints), st).ticks| >= n
       <==> c.Asks(n) && Quiet(c, st.events, n)
  {
    var p := Plan(c.first, c.period, c.maxTick, c.maxCheckpoints);
    PlannedExact(c, n);
    DriveBound(p, st);
    if c.Asks(n) {
      SeriesLengthExact(p, st, n);
      QuietIs(c, st.events, n);
    }
  }

  /**
   The simulator is asked for a negative number of ticks exactly if the first tick has passed already, or more
   is to come after the first checkpoint and the period is negative or the last tick has passed.
   */
  lemma CallRefused(c: Call, st: State)
    requires Pending(st)
    ensures c.Result(st).refused <==>
            || c.first < st.now
            || (NoExitBefore(st.events, c.first) && c.maxCheckpoints > 1 && (c.period < 0 || c.maxTick < c.first))
    ensures c.first < st.now ==> c.Result(st).drop == Drop([], st)
  {
    if c.first >= st.now {
      CallCases(c, st);
      var m := SkipToExact(st, c.first);
      NoExitIs(st.events, c.first);
    }
  }

  // ---------- where the simulator stands ----------

  /** At a limit: exactly the events before it have been served. */
  ghost predicate AtLimit(events: seq<Event>, m: nat, end: State, t: int) {
    && m <= |events| && end == State(t, events[m..])
    && (forall i :: 0 <= i < m ==> Before(events[i], t)) && (forall i :: m <= i < |events| ==> !Before(events[i], t))
  }

  /** At the first event that is no guest checkpoint, which comes before the limit. */
  ghost predicate AtExit(events: seq<Event>, m: nat, end: State, t: int) {
    && 0 < m <= |events| && end == State(events[m - 1].tick, events[m..])
    && events[m - 1].cause.OtherExit? && Before(events[m - 1], t)
    && forall i :: 0 <= i < m - 1 ==> !events[i].cause.OtherExit?
  }

  /** At the first event of any kind behind `from`, which comes before the limit. */
  ghost predicate AtNext(events: seq<Event>, m: nat, end: State, from: int, t: int) {
    && 0 < m <= |events| && end == State(events[m - 1].tick, events[m..])
    && !Before(events[m - 1], from) && Before(events[m - 1], t)
    && forall i :: 0 <= i < m - 1 ==> Before(events[i], from)
  }

  /** Where a series ends that has taken its last checkpoint at `last`, with more asked for or not. */
  ghost predicate Stands(events: seq<Event>, m: nat, end: State, n: nat, last: int, period: int, maxTick: int,
                         more: bool)
  {
    if !more || (n >= 1 && Between(events, last - period, last)) then AtLimit(events, m, end, last)
    else if last + period <= maxTick then AtExit(events, m, end, last + period)
    else AtLimit(events, m, end, maxTick) || AtNext(events, m, end, last, maxTick)
  }

  lemma ShiftLimit(events: seq<Event>, k: nat, m: nat, end: State, from: int, t: int)
    requires k <= |events| && (forall i :: 0 <= i < k ==> Before(events[i], from)) && from <= t
    requires AtLimit(events[k..], m, end, t)
    ensures AtLimit(events, k + m, end, t)
  {
    assert forall i :: k <= i < |events| ==> events[i] == events[k..][i - k];
    assert events[k..][m..] == events[k + m..];
  }

  lemma ShiftExit(events: seq<Event>, k: nat, m: nat, end: State, t: int)
    requires k <= |events| && (forall i :: 0 <= i < k ==> !events[i].cause.OtherExit?)
    requires AtExit(events[k..], m, end, t)
    ensures AtExit(events, k + m, end, t)
  {
    assert forall i :: k <= i < |events| ==> events[i] == events[k..][i - k];
    assert events[k..][m..] == events[k + m..];
  }

  lemma {:induction false} SkipEnds(st: State, target: int) returns (m: nat)
    requires Pending(st) && st.now <= target
    ensures var s := SkipTo(st, target);
            if s.cause.Limit? then AtLimit(st.events, m, s.st, target) && NoExitBefore(st.events, target)
            else AtExit(st.events, m, s.st, target)
    decreases |st.events|
  {
    var events := st.events;
    if events == [] || !Interrupts(events[0], target) {
      m := 0;
      if events != [] {
        HeadDecides(events, target);
      }
    } else if events[0].cause.GuestCheckpoint? {
      var s := SkipTo(RunTo(st, target).st, target);
      m := SkipEnds(RunTo(st, target).st, target);
      NoExitTail(events, target);
      if s.cause.Limit? {
        ShiftLimit(events, 1, m, s.st, target, target);
        NoExitIs(events, target);
        NoExitIs(events[1..], target);
      } else {
        ShiftExit(events, 1, m, s.st, target);
      }
      m := m + 1;
    } else {
      m := 1;
    }
  }

  lemma RunOnEnds(st: State, target: int) returns (m: nat)
    requires Pending(st) && st.now <= target && NoneBefore(st.events, st.now)
    ensures var s := RunTo(st, target);
            AtLimit(st.events, m, s.st, target) || AtNext(st.events, m, s.st, st.now, target)
  {
    m := 0;
    if st.events != [] {
      if Interrupts(st.events[0], target) {
        m := 1;
      } else {
        HeadDecides(st.events, target);
      }
    }
  }

  /** A period that an event interrupts: the checkpoint is taken behind it, or an exit ends the run. */
  lemma InterruptedEnds(p: Plan, st: State, left: int) returns (m: nat)
    requires Pending(st) && NoneBefore(st.events, st.now) && left > 0 && st.now + p.period <= p.maxTick
    requires st.events != [] && Interrupts(st.events[0], st.now + p.period)
    ensures var r, target := Series(p, st, left), st.now + p.period;
            if r.ticks == [] then AtExit(st.events, m, r.st, target)
            else r.ticks == [target] && AtLimit(st.events, m, r.st, target) && Between(st.events, st.now, target)
  {
    var target := st.now + p.period;
    m := SkipEnds(st, target);
    assert !Before(st.events[0], st.now) && Before(st.events[0], target);
  }

  lemma AtOnce(st: State)
    requires NoneBefore(st.events, st.now)
    ensures AtLimit(st.events, 0, st, st.now)
  {
    forall i | 0 <= i < |st.events| ensures !Before(st.events[i], st.now) {
      BeforeInterrupts(st.events[i], st.now);
    }
  }

  lemma {:induction false} SeriesEnds(p: Plan, st: State, left: int, r: Drop) returns (m: nat)
    requires Pending(st) && NoneBefore(st.events, st.now) && st.now <= p.maxTick && r == Series(p, st, left)
    ensures Stands(st.events, m, r.st, |r.ticks|, After(st.now, p.period, |r.ticks|), p.period, p.maxTick,
                   |r.ticks| < left)
    decreases left
  {
    assert After(st.now, p.period, 0) == st.now;
    if left <= 0 {
      m := 0;
      AtOnce(st);
    } else if st.now + p.period > p.maxTick {
      m := RunOnEnds(st, p.maxTick);
    } else if st.events != [] && Interrupts(st.events[0], st.now + p.period) {
      assert After(st.now, p.period, 1) == st.now + p.period;
      m := InterruptedEnds(p, st, left);
    } else {
      m := UninterruptedEnds(p, st, left, r);
    }
  }

  lemma {:induction false} UninterruptedEnds(p: Plan, st: State, left: int, r: Drop) returns (m: nat)
    requires Pending(st) && left > 0 && st.now + p.period <= p.maxTick && r == Series(p, st, left)
    requires !(st.events != [] && Interrupts(st.events[0], st.now + p.period))
    ensures Stands(st.events, m, r.st, |r.ticks|, After(st.now, p.period, |r.ticks|), p.period, p.maxTick,
                   |r.ticks| < left)
    decreases left, 0
  {
    var next := State(st.now + p.period, st.events);
    UninterruptedLeg(st, next.now);
    var rest := Series(p, next, left - 1);
    m := SeriesEnds(p, next, left - 1, rest);
    GoesOnTo(p, st, left, r, rest);
    var last, n := After(next.now, p.period, |rest.ticks|), |rest.ticks|;
    assert n == 0 ==> last == next.now;
    OneMorePeriod(st.events, m, r.st, n, last, p.period, p.maxTick, n < left - 1);
  }

  lemma GoesOnTo(p: Plan, st: State, left: int, r: Drop, rest: Drop)
    requires Pending(st) && left > 0 && st.now + p.period <= p.maxTick && r == Series(p, st, left)
    requires !(st.events != [] && Interrupts(st.events[0], st.now + p.period))
    requires Pending(State(st.now + p.period, st.events))
    requires rest == Series(p, State(st.now + p.period, st.events), left - 1)
    ensures |r.ticks| == |rest.ticks| + 1 && r.st == rest.st
    ensures After(st.now, p.period, |r.ticks|) == After(st.now + p.period, p.period, |rest.ticks|)
  {
    UninterruptedLeg(st, st.now + p.period);
    SeriesCases(p, st, left);
  }

  lemma OneMorePeriod(events: seq<Event>, m: nat, end: State, n: nat, last: int, period: int, maxTick: int, more: bool)
    requires Stands(events, m, end, n, last, period, maxTick, more)
    requires n == 0 ==> NoneBefore(events, last)
    ensures Stands(events, m, end, n + 1, last, period, maxTick, more)
  {
  }

  // ---------- the whole call ----------

  lemma ShiftNext(events: seq<Event>, k: nat, m: nat, end: State, first: int, from: int, t: int)
    requires k <= |events| && (forall i :: 0 <= i < k ==> Before(events[i], first)) && first <= from
    requires AtNext(events[k..], m, end, from, t)
    ensures AtNext(events, k + m, end, from, t)
  {
    assert forall i :: k <= i < |events| ==> events[i] == events[k..][i - k];
    assert events[k..][m..] == events[k + m..];
  }

  lemma ShiftBetween(events: seq<Event>, k: nat, first: int, from: int, to: int)
    requires k <= |events| && (forall i :: 0 <= i < k ==> Before(events[i], first)) && first <= from
    ensures Between(events[k..], from, to) <==> Between(events, from, to)
  {
    assert forall i :: k <= i < |events| ==> events[i] == events[k..][i - k];
    if Between(events, from, to) {
      var i :| 0 <= i < |events| && !Before(events[i], from) && Before(events[i], to);
      assert events[k..][i - k] == events[i];
    }
  }

  /** The same, seen from before the first checkpoint. */
  lemma ShiftStands(events: seq<Event>, k: nat, m: nat, end: State, n: nat, first: int, last: int, period: int,
                    maxTick: int, more: bool)
    requires k <= |events| && (forall i :: 0 <= i < k ==> Before(events[i], first) && !events[i].cause.OtherExit?)
    requires first <= last && first <= maxTick && (n >= 1 ==> first <= last - period)
    requires Stands(events[k..], m, end, n, last, period, maxTick, more)
    ensures Stands(events, k + m, end, n, last, period, maxTick, more)
  {
    if n >= 1 {
      ShiftBetween(events, k, first, last - period, last);
    }
    if AtLimit(events[k..], m, end, last) {
      ShiftLimit(events, k, m, end, first, last);
    }
    if AtLimit(events[k..], m, end, maxTick) {
      ShiftLimit(events, k, m, end, first, maxTick);
    }
    if AtExit(events[k..], m, end, last + period) {
      ShiftExit(events, k, m, end, last + period);
    }
    if AtNext(events[k..], m, end, last, maxTick) {
      ShiftNext(events, k, m, end, first, last, maxTick);
    }
  }

  /**
   Where the call leaves the simulator. Without any checkpoint: at the exit that came before the first one. With
   the number used up, or the next call refused, or a guest checkpoint in the last period: at the last checkpoint.
   Otherwise at the exit in the next period, or, if that would pass the last tick, at the next event or on the
   last tick.
   */
  ghost predicate LeftAt(c: Call, events: seq<Event>, m: nat, r: Run) {
    var n := |r.drop.ticks|;
    if n == 0 then AtExit(events, m, r.drop.st, c.first)
    else Stands(events, m, r.drop.st, n - 1, c.first + (n - 1) * c.period, c.period, c.maxTick,
                n < c.maxCheckpoints && !r.refused)
  }

  lemma CallEnds(c: Call, st: State) returns (m: nat)
    requires Pending(st) && c.first >= st.now
    ensures LeftAt(c, st.events, m, c.Result(st))
  {
    CallCases(c, st);
    m := SkipEnds(st, c.first);
    var s := SkipTo(st, c.first);
    if s.cause.Limit? {
      if c.maxCheckpoints > 1 && c.period >= 0 && c.maxTick >= c.first {
        m := SeriesCallEnds(c, st.events, s.st, m, c.Result(st));
      } else {
        OneCallEnds(c, st.events, s.st, m);
      }
    }
  }

  lemma OneCallEnds(c: Call, events: seq<Event>, at: State, m: nat)
    requires AtLimit(events, m, at, c.first)
    ensures LeftAt(c, events, m, Run(Drop([c.first], at), c.maxCheckpoints > 1))
  {
  }

  lemma SeriesCallEnds(c: Call, events: seq<Event>, at: State, k: nat, r: Run) returns (m: nat)
    requires c.maxCheckpoints > 1 && c.period >= 0 && c.maxTick >= c.first && Pending(at)
    requires AtLimit(events, k, at, c.first) && NoExitBefore(events, c.first)
    requires var rest := Series(Plan(c.first, c.period, c.maxTick, c.maxCheckpoints), at, c.maxCheckpoints - 1);
             r == Run(Drop([c.first] + rest.ticks, rest.st), false)
    ensures LeftAt(c, events, m, r)
  {
    var p := Plan(c.first, c.period, c.maxTick, c.maxCheckpoints);
    var rest := Series(p, at, c.maxCheckpoints - 1);
    RestIsQuiet(events, k, at, c.first);
    m := SeriesEnds(p, at, c.maxCheckpoints - 1, rest);
    m := ShiftedEnds(c, events, k, m, rest);
    WithFirst(c, events, m, rest, r);
  }

  lemma WithFirst(c: Call, events: seq<Event>, m: nat, rest: Drop, r: Run)
    requires r == Run(Drop([c.first] + rest.ticks, rest.st), false)
    requires Stands(events, m, rest.st, |rest.ticks|, c.first + |rest.ticks| * c.period, c.period, c.maxTick,
                    |rest.ticks| < c.maxCheckpoints - 1)
    ensures LeftAt(c, events, m, r)
  {
  }

  lemma RestIsQuiet(events: seq<Event>, k: nat, at: State, first: int)
    requires AtLimit(events, k, at, first)
    ensures NoneBefore(at.events, first)
  {
    assert forall i :: 0 <= i < |at.events| ==> at.events[i] == events[k + i];
  }

  lemma ShiftedEnds(c: Call, events: seq<Event>, k: nat, m0: nat, rest: Drop) returns (m: nat)
    requires c.period >= 0 && c.maxTick >= c.first && k <= |events|
    requires forall i :: 0 <= i < k ==> Before(events[i], c.first) && !events[i].cause.OtherExit?
    requires Stands(events[k..], m0, rest.st, |rest.ticks|, After(c.first, c.period, |rest.ticks|), c.period, c.maxTick,
                    |rest.ticks| < c.maxCheckpoints - 1)
    ensures Stands(events, m, rest.st, |rest.ticks|, c.first + |rest.ticks| * c.period, c.period, c.maxTick,
                   |rest.ticks| < c.maxCheckpoints - 1)
  {
    var n := |rest.ticks|;
    var last := After(c.first, c.period, n);
    AfterIs(c.first, c.period, n);
    if n >= 1 {
      AfterIs(c.first, c.period, n - 1);
      assert (n - 1) * c.period + c.period == n * c.period;
    }
    ShiftStands(events, k, m0, rest.st, n, c.first, last, c.period, c.maxTick, n < c.maxCheckpoints - 1);
    m := k + m0;
  }

  // ---------- restoring ----------

  /**
   After a call into a directory that held no checkpoints, whatever else it holds and however it is listed:
   restoring checkpoint `num` starts at tick `first + (num - 1) * period`, zero and negative numbers count back from
   the last one, and any other number finds nothing.
   */
  lemma RestoreSelects(c: Call, st: State, ticks: seq<int>, dirs: seq<string>, others: seq<string>, num: int)
    requires Pending(st) && ticks == c.Ticks(st) && (c.period > 0 || |ticks| <= 1)
    requires forall k :: 0 <= k < |ticks| ==> ticks[k] >= 0
    requires multiset(dirs) == multiset(Dirs(ticks)) + multiset(others) && Matches(others) == []
    ensures var n, chosen := |ticks|, Choose(StableSort(Matches(dirs), Number), num);
            var i := if num >= 1 then num - 1 else n - 1 + num;
            var tick := c.first + i * c.period;
            if 0 <= i < n then tick >= 0 && chosen == Choice(tick, "cpt." + Decimal(tick)) else chosen == NotFound
  {
    OnTime(c, st, ticks);
    SelectsTick(c.first, c.period, ticks, dirs, others, num);
  }

  lemma OnTime(c: Call, st: State, ticks: seq<int>)
    requires Pending(st) && ticks == c.Ticks(st)
    ensures forall k :: 0 <= k < |ticks| ==> ticks[k] == c.first + k * c.period
  {
    CallTicks(c, st);
  }

  lemma SelectsTick(first: int, period: int, ticks: seq<int>, dirs: seq<string>, others: seq<string>, num: int)
    requires period > 0 || |ticks| <= 1
    requires forall k :: 0 <= k < |ticks| ==> ticks[k] == first + k * period && ticks[k] >= 0
    requires multiset(dirs) == multiset(Dirs(ticks)) + multiset(others) && Matches(others) == []
    ensures var n, chosen := |ticks|, Choose(StableSort(Matches(dirs), Number), num);
            var i := if num >= 1 then num - 1 else n - 1 + num;
            if 0 <= i < n then chosen == Choice(ticks[i], "cpt." + Decimal(ticks[i])) else chosen == NotFound
  {
    ListedNames(ticks, dirs, others);
    ChosenTick(Plan(first, if period > 0 then period else 1, 0, 0), ticks, Matches(dirs), num);
  }
}
