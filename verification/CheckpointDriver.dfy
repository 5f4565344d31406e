/**
 Taking scripted checkpoints: the simulator is run from one checkpoint tick to the next, guest events
 may stop it in between, and checkpoints asked for by the guest are to be skipped.
 */
module CheckpointDriver {

  datatype Cause = Limit | GuestCheckpoint | OtherExit(name: string)

  /**
   A guest event that makes the simulator return. If it falls on the very tick of the limit, `first`
   says whether it is served before the limit.
   */
  datatype Event = Event(tick: int, cause: Cause, first: bool)

  function Rank(e: Event): int { 2 * e.tick + if e.first then 0 else 1 }

  /** The event is served before a limit at `target`. */
  predicate Interrupts(e: Event, target: int) { Rank(e) <= 2 * target }

  /** Events come in the order in which they are served, and none of them is the limit. */
  predicate Ordered(events: seq<Event>) {
    events != [] ==>
      && !events[0].cause.Limit?
      && (|events| > 1 ==> Rank(events[0]) <= Rank(events[1]))
      && Ordered(events[1..])
  }

  // ---------- the simulator ----------

  datatype State = State(now: int, events: seq<Event>)

  predicate Pending(st: State) {
    Ordered(st.events) && (st.events != [] ==> st.events[0].tick >= st.now)
  }

  datatype Stop = Stop(st: State, cause: Cause)

  /** `simulate(target - now)`: up to the first guest event or exactly to the limit. */
  function RunTo(st: State, target: int): (s: Stop)
    requires Pending(st) && st.now <= target
    ensures Pending(s.st) && st.now <= s.st.now <= target
    ensures s.cause.Limit? ==> s.st == State(target, st.events)
    ensures !s.cause.Limit? ==> |s.st.events| < |st.events|
  {
    if st.events != [] && Interrupts(st.events[0], target)
    then Stop(State(st.events[0].tick, st.events[1..]), st.events[0].cause)
    else Stop(State(target, st.events), Limit)
  }

  class Simulator {
    var st: State
    var taken: seq<int>

    ghost predicate Valid()
      reads this
    {
      Pending(st)
    }

    constructor (start: State)
      requires Pending(start)
      ensures Valid() && st == start && taken == []
    {
      st, taken := start, [];
    }

    method Simulate(ticks: nat) returns (cause: Cause)
      requires Valid()
      modifies this`st
      ensures Valid() && Stop(st, cause) == RunTo(old(st), old(st.now) + ticks)
    {
      if st.events != [] && Interrupts(st.events[0], st.now + ticks) {
        cause := st.events[0].cause;
        st := State(st.events[0].tick, st.events[1..]);
      } else {
        cause := Limit;
        st := st.(now := st.now + ticks);
      }
    }

    method Checkpoint()
      modifies this`taken
      ensures taken == old(taken) + [st.now]
    {
      taken := taken + [st.now];
    }
  }

  // ---------- the driver as a function ----------

  /** Run to `target`, resuming after every guest checkpoint. */
  function SkipTo(st: State, target: int): (s: Stop)
    requires Pending(st) && st.now <= target
    ensures Pending(s.st) && s.st.now <= target && !s.cause.GuestCheckpoint?
    ensures s.cause.Limit? ==> s.st.now == target
    decreases |st.events|
  {
    var s := RunTo(st, target);
    if s.cause.GuestCheckpoint? then SkipTo(s.st, target) else s
  }

  datatype Plan = Plan(when_: int, period: nat, maxTick: int, maxCheckpoints: int) {
    /** The tick meant for checkpoint `k`. */
    function At(k: nat): int { when_ + k * period }
  }

  /** From one checkpoint tick to the next: how it stopped first, and how after skipping guest checkpoints. */
  datatype Leg = Leg(first: Cause, end: Stop)

  function RunLeg(st: State, target: int): (l: Leg)
    requires Pending(st) && st.now <= target
    ensures Pending(l.end.st) && l.end.st.now <= target && (l.end.cause.Limit? ==> l.end.st.now == target)
    ensures l.first.Limit? ==> l.end.cause.Limit? && l.end.st == State(target, st.events)
  {
    var s := RunTo(st, target);
    Leg(s.cause, if s.cause.GuestCheckpoint? then SkipTo(s.st, target) else s)
  }

  datatype Drop = Drop(ticks: seq<int>, st: State)

  /** What the loop does after a checkpoint at `st.now`, with at most `left` more to take. */
  function Series(p: Plan, st: State, left: int): (r: Drop)
    requires Pending(st) && st.now <= p.maxTick
    ensures r.st.now <= p.maxTick
    decreases left
  {
    if left <= 0 then Drop([], st)
    else if st.now + p.period > p.maxTick then Drop([], RunTo(st, p.maxTick).st)
    else
      var leg := RunLeg(st, st.now + p.period);
      if !leg.end.cause.Limit? then Drop([], leg.end.st)
      else if !leg.first.Limit? then Drop([st.now + p.period], leg.end.st)
      else
        var r := Series(p, leg.end.st, left - 1);
        Drop([st.now + p.period] + r.ticks, r.st)
  }

  /** The ticks of all checkpoints taken, and where the simulator ends up. */
  function Drive(p: Plan, st: State): (r: Drop)
    requires Pending(st) && st.now <= p.when_ <= p.maxTick
  {
    var s := SkipTo(st, p.when_);
    if !s.cause.Limit? then Drop([], s.st)
    else
      var r := Series(p, s.st, p.maxCheckpoints - 1);
      Drop([p.when_] + r.ticks, r.st)
  }

  /** A whole call: what it did, and whether the simulator refused a negative number of ticks in the end. */
  datatype Run = Run(drop: Drop, refused: bool)

  /** The call for any command line: a first tick in the past, behind the last tick, or a negative period included. */
  function Script(first: int, period: int, maxTick: int, maxCheckpoints: int, st: State): (r: Run)
    requires Pending(st)
  {
    if first < st.now then Run(Drop([], st), true)
    else
      var s := SkipTo(st, first);
      if !s.cause.Limit? then Run(Drop([], s.st), false)
      else if maxCheckpoints <= 1 then Run(Drop([first], s.st), false)
      else if period < 0 || maxTick < first then Run(Drop([first], s.st), true)
      else Run(Drive(Plan(first, period, maxTick, maxCheckpoints), st), false)
  }

  // ---------- the driver as written ----------

  method RunSkipping(sim: Simulator, target: int) returns (cause: Cause)
    requires sim.Valid() && sim.st.now <= target
    modifies sim`st
    ensures sim.Valid() && Stop(sim.st, cause) == SkipTo(old(sim.st), target)
  {
    cause := sim.Simulate(target - sim.st.now);
    while cause.GuestCheckpoint?
      invariant sim.Valid() && sim.st.now <= target
      invariant SkipTo(old(sim.st), target) ==
                if cause.GuestCheckpoint? then SkipTo(sim.st, target) else Stop(sim.st, cause)
      decreases |sim.st.events|, cause.GuestCheckpoint?
    {
      cause := sim.Simulate(target - sim.st.now);
    }
  }

  /** One round of the loop: run on by `ticks`, then resume after guest checkpoints. */
  method RunOn(sim: Simulator, ticks: nat) returns (first: Cause, end: Cause)
    requires sim.Valid()
    modifies sim`st
    ensures sim.Valid() && Leg(first, Stop(sim.st, end)) == RunLeg(old(sim.st), old(sim.st.now) + ticks)
  {
    var target := sim.st.now + ticks;
    first := sim.Simulate(ticks);
    end := first;
    if end.GuestCheckpoint? {
      end := RunSkipping(sim, target);
    }
  }

  /** What the loop still has to do, given that it goes on only if `exitCause` is the limit. */
  function Remaining(p: Plan, st: State, num: int, exitCause: Cause): Drop
    requires Pending(st) && st.now <= p.maxTick
  {
    if exitCause.Limit? then Series(p, st, p.maxCheckpoints - num) else Drop([], st)
  }

  lemma RemainingStep(p: Plan, st: State, num: int, taken: seq<int>)
    requires Pending(st) && st.now + p.period <= p.maxTick && num < p.maxCheckpoints
    ensures var leg := RunLeg(st, st.now + p.period);
            var all := Remaining(p, st, num, Limit);
            if leg.end.cause.Limit? then
              var rest := Remaining(p, leg.end.st, num + 1, leg.first);
              taken + all.ticks == taken + [st.now + p.period] + rest.ticks && all.st == rest.st
            else all == Remaining(p, leg.end.st, num, leg.first)
  {
    var leg := RunLeg(st, st.now + p.period);
    if leg.end.cause.Limit? {
      var rest := Remaining(p, leg.end.st, num + 1, leg.first);
      assert taken + ([st.now + p.period] + rest.ticks) == taken + [st.now + p.period] + rest.ticks;
    }
  }

  /** Runs for one period and takes a checkpoint if the limit was reached in the end. */
  method NextPeriod(sim: Simulator, p: Plan, num: int) returns (exitCause: Cause, num': int)
    requires sim.Valid() && sim.st.now + p.period <= p.maxTick && num < p.maxCheckpoints
    modifies sim
    ensures sim.Valid() && sim.st.now <= p.maxTick
    ensures exitCause.Limit? ==> sim.st.now == old(sim.st.now) + p.period && num' == num + 1
    ensures num <= num' <= num + 1
    ensures sim.taken + Remaining(p, sim.st, num', exitCause).ticks
         == old(sim.taken) + Remaining(p, old(sim.st), num, Limit).ticks
    ensures Remaining(p, sim.st, num', exitCause).st == Remaining(p, old(sim.st), num, Limit).st
  {
    RemainingStep(p, sim.st, num, sim.taken);
    // Guest checkpoints are skipped, but `exitCause` keeps the cause of the first stop.
    var end;
    exitCause, end := RunOn(sim, p.period);
    num' := num;
    if end.Limit? {
      sim.Checkpoint();
      num' := num' + 1;
    }
  }

  /** The loop that takes one checkpoint per period. */
  method TakeSeries(sim: Simulator, p: Plan, num0: int)
    requires sim.Valid() && sim.st.now == p.when_ <= p.maxTick
    modifies sim
    ensures sim.Valid()
    ensures sim.taken == old(sim.taken) + Series(p, old(sim.st), p.maxCheckpoints - num0).ticks
    ensures sim.st == Series(p, old(sim.st), p.maxCheckpoints - num0).st
  {
    var num, simTicks, exitCause := num0, p.when_, Limit;
    ghost var all := Remaining(p, sim.st, num, Limit);
    while num < p.maxCheckpoints && exitCause.Limit?
      invariant sim.Valid() && sim.st.now <= p.maxTick
      invariant exitCause.Limit? ==> simTicks == sim.st.now
      invariant old(sim.taken) + all.ticks == sim.taken + Remaining(p, sim.st, num, exitCause).ticks
      invariant all.st == Remaining(p, sim.st, num, exitCause).st
      decreases p.maxCheckpoints - num, exitCause.Limit?
    {
      if simTicks + p.period > p.maxTick {
        exitCause := sim.Simulate(p.maxTick - simTicks);
        return;
      }
      exitCause, num := NextPeriod(sim, p, num);
      simTicks := simTicks + p.period;
    }
  }

  method ScriptCheckpoints(sim: Simulator, first: int, period: int, maxTick: int, maxCheckpoints: int)
    returns (refused: bool)
    requires sim.Valid()
    modifies sim
    ensures sim.Valid()
    ensures var r := Script(first, period, maxTick, maxCheckpoints, old(sim.st));
            sim.taken == old(sim.taken) + r.drop.ticks && sim.st == r.drop.st && refused == r.refused
  {
    if first < sim.st.now {
      return true;
    }
    var exitCause := RunSkipping(sim, first);
    refused := false;
    if exitCause.Limit? {
      sim.Checkpoint();
      if maxCheckpoints > 1 {
        // Either call in the loop's first round would ask for a negative number of ticks.
        refused := period < 0 || maxTick < first;
        if !refused {
          TakeSeries(sim, Plan(first, period, maxTick, maxCheckpoints), 1);
        }
      }
    }
  }
}
