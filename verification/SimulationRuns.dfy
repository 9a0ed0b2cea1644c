/**
 What the drivers of `Simulation.py` keep over every run: when checkpoints are
 written and cpus switched, how far the time spent draining moves them, and when a
 driver ends up asking for a negative number of ticks.
 */
module SimulationRuns {
  import opened SimulationDrivers

  function Sum(s: seq<nat>): nat {
    if s == [] then 0 else Sum(s[..|s| - 1]) + s[|s| - 1]
  }

  lemma {:induction false} SumAppend(s: seq<nat>, d: nat)
    ensures Sum(s + [d]) == Sum(s) + d
  {
    assert (s + [d])[..|s|] == s;
  }

  lemma {:induction false} SumPrefix(s: seq<nat>, k: nat)
    requires k < |s|
    ensures Sum(s[..k]) + s[k] <= Sum(s)
  {
    var rest := s[..|s| - 1];
    if k < |rest| {
      SumPrefix(rest, k);
      assert rest[..k] == s[..k];
    } else {
      assert s[..k] == rest;
    }
  }

  lemma {:induction false} SumOfZeros(s: seq<nat>)
    ensures Sum(s) == 0 <==> forall k :: 0 <= k < |s| ==> s[k] == 0
  {
    if s != [] {
      SumOfZeros(s[..|s| - 1]);
      assert s == s[..|s| - 1] + [s[|s| - 1]];
      if Sum(s) == 0 {
        forall k | 0 <= k < |s| ensures s[k] == 0 {
          SumPrefix(s, k);
        }
      } else if Sum(s[..|s| - 1]) != 0 {
        var k :| 0 <= k < |s| - 1 && s[..|s| - 1][k] != 0;
        assert s[k] != 0;
      }
    }
  }

  // ------------------------------------------------------------- scriptCheckpoints

  /** The tick for which checkpoint k is planned. */
  function Mark(o: Options, k: nat): int {
    o.when + k * o.period
  }

  lemma MarkStep(o: Options, k: nat)
    ensures Mark(o, k + 1) == Mark(o, k) + o.period
  {
  }

  /** How far checkpoint k is behind its mark. */
  function Delay(log: Log, k: nat): nat
    requires k < |log.written| == |log.drains|
  {
    if log.skipped && k == |log.written| - 1 then log.drains[k] else Sum(log.drains[..k + 1])
  }

  predicate Timed(o: Options, log: Log) {
    && |log.written| == |log.drains|
    && (log.skipped ==> |log.written| >= 2)
    && forall k: nat :: k < |log.written| ==> log.written[k] == Mark(o, k) + Delay(log, k)
  }

  /** At most the checkpoints allowed, but the first in any case, and marks within the maximum tick. */
  predicate Planned(o: Options, n: nat) {
    && (n <= 1 || n <= o.maxCheckpoints)
    && (n >= 1 && o.when <= o.maxtick ==> Mark(o, n - 1) <= o.maxtick)
  }

  /** The driver stands at the head of its loop and goes on. */
  predicate GoesOn(o: Options, r: Result) {
    1 <= |r.log.written| < o.maxCheckpoints && !r.log.skipped && r.last == Exit(LimitReached)
  }

  /** The options themselves ask for a negative number of ticks behind checkpoint n. */
  predicate BadOptions(o: Options, n: nat) {
    n >= 1 && if Mark(o, n) > o.maxtick then Mark(o, n - 1) > o.maxtick else o.period < 0
  }

  /** A checkpoint instruction of the program was met behind the next mark. */
  predicate LateInst(o: Options, r: Result) {
    && r.last == Exit(CheckpointInst)
    && Mark(o, |r.log.written|) <= o.maxtick
    && r.sim.tick > Mark(o, |r.log.written|)
  }

  /** Failures have one of two causes. */
  predicate Explained(o: Options, r: Result) {
    r.outcome == Failed <==> (GoesOn(o, r) && BadOptions(o, |r.log.written|)) || LateInst(o, r)
  }

  /** The tick is behind the maximum or the next mark by no more than all drains. */
  predicate Near(o: Options, r: Result) {
    0 <= o.period && o.when <= o.maxtick ==>
      && r.sim.tick <= o.maxtick + Sum(r.log.drains)
      && (LateInst(o, r) ==> r.sim.tick <= Mark(o, |r.log.written|) + Sum(r.log.drains))
  }

  /** What holds at the loop head when the last period ended at the limit: all drains so far are behind the plan. */
  predicate OnTime(o: Options, h: Head) {
    && h.log.written != []
    && !h.log.skipped
    && h.last == Exit(LimitReached)
    && h.simTicks == Mark(o, |h.log.written| - 1)
    && h.sim.tick == h.simTicks + Sum(h.log.drains)
  }

  /** What holds at the loop head when something else ended it, which ends the loop. */
  predicate Ending(o: Options, h: Head) {
    && h.last != Exit(CheckpointInst)
    && (h.last == Exit(LimitReached) ==> h.log.skipped)
    && (0 <= o.period && o.when <= o.maxtick ==> h.sim.tick <= o.maxtick + Sum(h.log.drains))
  }

  predicate HeadInv(o: Options, h: Head) {
    && Timed(o, h.log)
    && Planned(o, |h.log.written|)
    && if h.exitCause == LimitReached then OnTime(o, h) else Ending(o, h)
  }

  predicate Sound(o: Options, r: Result) {
    Timed(o, r.log) && Planned(o, |r.log.written|) && Explained(o, r) && Near(o, r)
  }

  lemma WriteTimed(o: Options, log: Log, s: Sim, skipped: bool)
    requires Timed(o, log) && !log.skipped && CanDrain(s)
    requires skipped ==> log.written != []
    requires s.tick == Mark(o, |log.written|) + if skipped then 0 else Sum(log.drains)
    ensures Timed(o, Write(log, s, skipped))
    ensures Sum(Write(log, s, skipped).drains) == Sum(log.drains) + s.future[0].ticks
  {
    var after := Write(log, s, skipped);
    var n := |log.written|;
    SumAppend(log.drains, s.future[0].ticks);
    forall k: nat | k < n + 1 ensures after.written[k] == Mark(o, k) + Delay(after, k) {
      if k < n {
        assert after.drains[..k + 1] == log.drains[..k + 1];
        assert log.written[k] == Mark(o, k) + Delay(log, k);
      } else {
        assert after.drains[..k + 1] == after.drains;
      }
    }
  }

  /** Where the inner loop ends up: at the target, short of it, or past it with an error. */
  lemma {:induction false} SkipEnds(st: Stopped, target: int)
    ensures var end := SkipInsts(st, target);
            && end.exit != Exit(CheckpointInst)
            && (st.exit != Exit(CheckpointInst) ==> end == st)
            && (st.exit == Exit(CheckpointInst) ==>
              && (end.exit == NegativeTicks <==> st.sim.tick > target)
              && (end.exit == NegativeTicks ==> end.sim == st.sim)
              && (end.exit != NegativeTicks ==> end.sim.tick <= target)
              && (end.exit == Exit(LimitReached) ==> end.sim.tick == target))
    decreases |st.sim.future|
  {
    if st.exit == Exit(CheckpointInst) {
      var next := Simulate(st.sim, target - st.sim.tick);
      if next.exit.Exit? {
        SkipEnds(next, target);
      }
    }
  }

  predicate NextInv(o: Options, next: Next) {
    match next
    case Done(r) => Sound(o, r)
    case More(h) => HeadInv(o, h)
  }

  lemma WriteInv(o: Options, s: Sim, log: Log, exitCause: Cause)
    requires Timed(o, log) && !log.skipped && log.written != [] && CanDrain(s)
    requires Mark(o, |log.written|) <= o.maxtick && |log.written| < o.maxCheckpoints
    requires s.tick == Mark(o, |log.written|) + if exitCause == LimitReached then Sum(log.drains) else 0
    ensures var after := Write(log, s, exitCause != LimitReached);
            HeadInv(o, Head(Advance(s), Mark(o, |log.written|), after, exitCause, Exit(LimitReached)))
  {
    WriteTimed(o, log, s, exitCause != LimitReached);
    assert |Write(log, s, exitCause != LimitReached).written| == |log.written| + 1;
  }

  /** The end of a full period, whether or not checkpoint instructions came in between. */
  lemma EndPeriodInv(o: Options, end: Stopped, log: Log, exitCause: Cause)
    requires Timed(o, log) && !log.skipped && log.written != []
    requires Planned(o, |log.written|) && Mark(o, |log.written|) <= o.maxtick && |log.written| < o.maxCheckpoints
    requires 0 <= o.period && end.sim.tick <= Mark(o, |log.written|) + Sum(log.drains)
    requires exitCause == LimitReached ==> end.exit == Exit(LimitReached)
    requires end.exit == Exit(LimitReached) ==>
               end.sim.tick == Mark(o, |log.written|) + if exitCause == LimitReached then Sum(log.drains) else 0
    requires end.exit != Exit(CheckpointInst)
    requires !end.exit.Exit? ==> (end.exit == NegativeTicks <==> end.sim.tick > Mark(o, |log.written|))
    ensures NextInv(o, EndPeriod(end, Mark(o, |log.written|), log, exitCause, exitCause != LimitReached))
  {
    if end.exit == Exit(LimitReached) && CanDrain(end.sim) {
      WriteInv(o, end.sim, log, exitCause);
    } else if !end.exit.Exit? {
      var r := Result(Abandoned(end.exit), end.sim, log, Exit(CheckpointInst));
      assert LateInst(o, r) <==> end.exit == NegativeTicks;
    }
  }

  /** The last period is cut short at the maximum tick. */
  lemma LastPeriodInv(o: Options, h: Head)
    requires HeadInv(o, h) && OnTime(o, h) && h.exitCause == LimitReached && |h.log.written| < o.maxCheckpoints
    requires Mark(o, |h.log.written|) == h.simTicks + o.period > o.maxtick
    ensures NextInv(o, Round(o, h))
  {
    var st := Simulate(h.sim, o.maxtick - h.simTicks);
    assert BadOptions(o, |h.log.written|) <==> h.simTicks > o.maxtick;
  }

  lemma FullPeriodInv(o: Options, h: Head)
    requires HeadInv(o, h) && OnTime(o, h) && h.exitCause == LimitReached && |h.log.written| < o.maxCheckpoints
    requires Mark(o, |h.log.written|) == h.simTicks + o.period <= o.maxtick
    ensures NextInv(o, Round(o, h))
  {
    var st := Simulate(h.sim, o.period);
    if st.exit.Exit? {
      SkipEnds(st, h.simTicks + o.period);
      EndPeriodInv(o, SkipInsts(st, h.simTicks + o.period), h.log, st.exit.cause);
    } else {
      assert BadOptions(o, |h.log.written|) <==> o.period < 0;
    }
  }

  lemma RoundInv(o: Options, h: Head)
    requires HeadInv(o, h)
    ensures NextInv(o, Round(o, h))
  {
    if |h.log.written| < o.maxCheckpoints && h.exitCause == LimitReached {
      MarkStep(o, |h.log.written| - 1);
      if h.simTicks + o.period > o.maxtick {
        LastPeriodInv(o, h);
      } else {
        FullPeriodInv(o, h);
      }
    } else {
      assert Round(o, h) == Done(Result(Finished, h.sim, h.log, h.last));
    }
  }

  lemma {:induction false} LoopSound(o: Options, h: Head)
    requires HeadInv(o, h)
    ensures Sound(o, CheckpointLoop(o, h))
    decreases |h.sim.future|
  {
    RoundShrinks(o, h);
    RoundInv(o, h);
    if Round(o, h).More? {
      LoopSound(o, Round(o, h).head);
    }
  }

  /** The end of the way to the first checkpoint. */
  lemma FirstInv(o: Options, end: Stopped, exitCause: Cause)
    requires end.exit != Exit(CheckpointInst) && end.exit != NegativeTicks
    requires end.exit.Exit? ==> exitCause == end.exit.cause
    requires end.sim.tick <= o.when && (end.exit == Exit(LimitReached) ==> end.sim.tick == o.when)
    ensures NextInv(o, EndPeriod(end, o.when, NO_LOG, exitCause, false))
  {
    if end.exit == Exit(LimitReached) {
      if CanDrain(end.sim) {
        WriteTimed(o, NO_LOG, end.sim, false);
      }
    }
  }

  lemma BeginInv(o: Options, s: Sim)
    requires s.tick <= o.when
    ensures NextInv(o, Begin(o, s))
  {
    var first := Simulate(s, o.when - s.tick);
    if first.exit.Exit? {
      var end := SkipInsts(first, o.when);
      SkipEnds(first, o.when);
      FirstInv(o, end, if end.exit.Exit? then end.exit.cause else LimitReached);
    }
  }

  lemma ScriptSound(o: Options, s: Sim)
    requires s.tick <= o.when
    ensures Sound(o, Script(o, s))
  {
    BeginInv(o, s);
    if Begin(o, s).More? {
      LoopSound(o, Begin(o, s).head);
    }
  }

  /**
   Checkpoint k is written k periods behind the first mark and later by all the
   drains so far. Only one that is reached past a checkpoint instruction, which is
   the last, is late by its own drain alone. There are no more than allowed, but the
   first is written in any case, and no mark lies behind the maximum tick.
   */
  lemma CheckpointTimes(o: Options, s: Sim)
    ensures Timed(o, Script(o, s).log)
    ensures Planned(o, |Script(o, s).log.written|)
  {
    if s.tick <= o.when {
      ScriptSound(o, s);
    }
  }

  predicate OnSchedule(o: Options, written: seq<nat>) {
    forall k: nat :: k < |written| ==> written[k] == o.when + k * o.period
  }

  predicate NoDrainTime(drains: seq<nat>) {
    forall k :: 0 <= k < |drains| ==> drains[k] == 0
  }

  lemma OnScheduleIffNoDrainTime(o: Options, s: Sim)
    ensures OnSchedule(o, Script(o, s).log.written) <==> NoDrainTime(Script(o, s).log.drains)
  {
    CheckpointTimes(o, s);
    var log := Script(o, s).log;
    if NoDrainTime(log.drains) {
      forall k: nat | k < |log.written| ensures log.written[k] == o.when + k * o.period {
        SumOfZeros(log.drains[..k + 1]);
        assert log.written[k] == Mark(o, k) + Delay(log, k);
      }
    }
    if OnSchedule(o, log.written) {
      forall k: nat | k < |log.drains| ensures log.drains[k] == 0 {
        assert log.written[k] == Mark(o, k) + Delay(log, k);
        assert log.written[k] == o.when + k * o.period;
        SumPrefix(log.drains[..k + 1], k);
      }
    }
  }

  /**
   A run fails if and only if it starts behind the first mark, its options are bad,
   or a checkpoint instruction is met behind the next mark.
   */
  lemma FailedIff(o: Options, s: Sim)
    ensures var r := Script(o, s);
            r.outcome == Failed <==>
            s.tick > o.when || (GoesOn(o, r) && BadOptions(o, |r.log.written|)) || LateInst(o, r)
  {
    if s.tick <= o.when {
      ScriptSound(o, s);
    }
  }

  /** What a checkpoint job is meant for: it starts in time, and the first mark is within the maximum tick. */
  predicate Sensible(o: Options, s: Sim) {
    s.tick <= o.when <= o.maxtick && 0 <= o.period
  }

  /**
   A sensible job is never further behind the maximum tick than all its drains took.
   It fails exactly when a checkpoint instruction is met behind the next mark. If no
   drain takes time it neither passes the maximum nor fails.
   */
  lemma SensibleRun(o: Options, s: Sim)
    requires Sensible(o, s)
    ensures var r := Script(o, s);
            && r.sim.tick <= o.maxtick + Sum(r.log.drains)
            && (r.outcome == Failed <==> LateInst(o, r))
            && (NoDrainTime(r.log.drains) ==> r.sim.tick <= o.maxtick && r.outcome != Failed)
  {
    ScriptSound(o, s);
    SumOfZeros(Script(o, s).log.drains);
  }

  // ------------------------------------------------------------- undisturbed runs

  predicate AllLimits(future: seq<Event>) {
    forall i :: 0 <= i < |future| && future[i].Stop? ==> future[i].cause == LimitReached
  }

  /** Where an undisturbed run ends: with all checkpoints allowed, or at the maximum tick, and late by all drains. */
  predicate Filled(o: Options, r: Result) {
    var n := |r.log.written|;
    && n >= 1
    && if n < o.maxCheckpoints then
      Mark(o, n) > o.maxtick && r.sim.tick == o.maxtick + Sum(r.log.drains)
    else
      (n == 1 || n == o.maxCheckpoints) && r.sim.tick == Mark(o, n - 1) + Sum(r.log.drains)
  }

  lemma LimitStep(s: Sim, n: int)
    requires AllLimits(s.future) && Simulate(s, n).exit.Exit?
    ensures Simulate(s, n).exit == Exit(LimitReached)
    ensures Simulate(s, n).sim.tick == s.tick + n && AllLimits(Simulate(s, n).sim.future)
  {
  }

  lemma UndisturbedRound(o: Options, h: Head)
    requires AllLimits(h.sim.future) && HeadInv(o, h) && h.exitCause == LimitReached
    ensures match Round(o, h)
            case Done(r) => r.outcome == Finished ==> Filled(o, r)
            case More(next) => AllLimits(next.sim.future) && next.exitCause == LimitReached
  {
    if |h.log.written| < o.maxCheckpoints {
      MarkStep(o, |h.log.written| - 1);
      var n := if h.simTicks + o.period > o.maxtick then o.maxtick - h.simTicks else o.period;
      var st := Simulate(h.sim, n);
      if st.exit.Exit? {
        LimitStep(h.sim, n);
        SkipEnds(st, h.simTicks + o.period);
      }
    }
  }

  lemma {:induction false} LoopFilled(o: Options, h: Head)
    requires AllLimits(h.sim.future) && HeadInv(o, h) && h.exitCause == LimitReached
    ensures CheckpointLoop(o, h).outcome == Finished ==> Filled(o, CheckpointLoop(o, h))
    decreases |h.sim.future|
  {
    RoundShrinks(o, h);
    RoundInv(o, h);
    UndisturbedRound(o, h);
    if Round(o, h).More? {
      LoopFilled(o, Round(o, h).head);
    }
  }

  lemma UndisturbedRun(o: Options, s: Sim)
    requires AllLimits(s.future) && Script(o, s).outcome == Finished
    ensures Filled(o, Script(o, s))
  {
    var first := Simulate(s, o.when - s.tick);
    LimitStep(s, o.when - s.tick);
    SkipEnds(first, o.when);
    BeginInv(o, s);
    LoopFilled(o, Begin(o, s).head);
  }

  /** An undisturbed run that ends for the maximum tick passes it exactly when some drain took time. */
  lemma PassesMaxtickIff(o: Options, s: Sim)
    requires AllLimits(s.future) && Script(o, s).outcome == Finished
    requires |Script(o, s).log.written| < o.maxCheckpoints
    ensures Script(o, s).sim.tick > o.maxtick <==> !NoDrainTime(Script(o, s).log.drains)
  {
    UndisturbedRun(o, s);
    SumOfZeros(Script(o, s).log.drains);
  }

  lemma {:induction false} LoopLogGrows(o: Options, h: Head)
    ensures h.log.drains <= CheckpointLoop(o, h).log.drains
    decreases |h.sim.future|
  {
    RoundShrinks(o, h);
    if Round(o, h).More? {
      LoopLogGrows(o, Round(o, h).head);
    }
  }

  /** To the first mark, and a drain of d ticks. */
  function FirstDrain(o: Options, start: nat, d: nat): seq<Event>
    requires start <= o.when
  {
    [Stop(o.when - start, LimitReached), Drained(d)]
  }

  /** The run goes on with `tail` and fails before the second checkpoint. */
  ghost predicate FailsAfterFirst(o: Options, start: nat, d: nat, tail: seq<Event>)
    requires start <= o.when
  {
    var r := Script(o, Sim(start, FirstDrain(o, start, d) + tail));
    r.outcome == Failed && |r.log.written| == 1
  }

  lemma FirstHead(o: Options, start: nat, d: nat, tail: seq<Event>)
    requires start <= o.when
    ensures var log := Log([o.when + d], [d], false);
            Begin(o, Sim(start, FirstDrain(o, start, d) + tail)) ==
            More(Head(Sim(o.when + d, tail), o.when, log, LimitReached, Exit(LimitReached)))
  {
    var run := FirstDrain(o, start, d) + tail;
    var s1 := Sim(o.when, run[1..]);
    assert Simulate(Sim(start, run), o.when - start) == Stopped(Exit(LimitReached), s1);
    assert run[1..][0] == Drained(d) && run[1..][1..] == tail;
    assert Write(NO_LOG, s1, false) == Log([o.when + d], [d], false);
  }

  lemma InstAtEndFails(o: Options, start: nat, d: nat)
    requires start <= o.when && 0 <= o.period && o.when + o.period <= o.maxtick && o.maxCheckpoints > 1 && d > 0
    ensures FailsAfterFirst(o, start, d, [Stop(o.period, CheckpointInst)])
  {
    var tail := [Stop(o.period, CheckpointInst)];
    FirstHead(o, start, d, tail);
    var h := Begin(o, Sim(start, FirstDrain(o, start, d) + tail)).head;
    var st := Simulate(h.sim, o.period);
    assert st.exit == Exit(CheckpointInst) && st.sim.tick == o.when + d + o.period;
    SkipEnds(st, o.when + o.period);
    assert Round(o, h).Done? && Round(o, h).result.outcome == Failed;
  }

  /** Where a second checkpoint is planned, some run fails behind the first drain if and only if that takes time. */
  lemma DrainCanFailIff(o: Options, start: nat, d: nat)
    requires start <= o.when && 0 <= o.period && o.when + o.period <= o.maxtick && o.maxCheckpoints > 1
    ensures (exists tail :: FailsAfterFirst(o, start, d, tail)) <==> d > 0
  {
    if d > 0 {
      InstAtEndFails(o, start, d);
    }
    if tail :| FailsAfterFirst(o, start, d, tail) {
      var s := Sim(start, FirstDrain(o, start, d) + tail);
      var r := Script(o, s);
      FirstHead(o, start, d, tail);
      LoopLogGrows(o, Begin(o, s).head);
      CheckpointTimes(o, s);
      assert r.log.drains[0] == d;
      SensibleRun(o, s);
    }
  }

  // ------------------------------------------------------------------ repeatSwitch

  /** Switch j comes j + 1 periods and all the drains so far behind the start. */
  predicate SwitchTimed(start: nat, freq: int, sw: Switches) {
    && |sw.ticks| == |sw.drains|
    && forall j: nat :: j < |sw.ticks| ==> sw.ticks[j] == start + (j + 1) * freq + Sum(sw.drains[..j + 1])
  }

  predicate SwitchHead(start: nat, freq: int, s: Sim, sw: Switches) {
    SwitchTimed(start, freq, sw) && s.tick == start + |sw.ticks| * freq + Sum(sw.drains)
  }

  lemma SwitchStep(start: nat, freq: int, s: Sim, sw: Switches, cpus: CpuList)
    requires SwitchTimed(start, freq, sw) && CanDrain(s)
    requires s.tick == start + (|sw.ticks| + 1) * freq + Sum(sw.drains)
    ensures SwitchHead(start, freq, Advance(s), Switch(sw, s, cpus))
  {
    var after := Switch(sw, s, cpus);
    SumAppend(sw.drains, s.future[0].ticks);
    forall j: nat | j < |after.ticks| ensures after.ticks[j] == start + (j + 1) * freq + Sum(after.drains[..j + 1]) {
      if j < |sw.ticks| {
        assert after.drains[..j + 1] == sw.drains[..j + 1];
      } else {
        assert after.drains[..j + 1] == after.drains;
      }
    }
  }

  lemma PeriodStep(n: nat, freq: int)
    ensures (n + 1) * freq == n * freq + freq
  {
  }

  lemma {:induction false} SwitchLoopTimed(start: nat, maxtick: int, freq: int, s: Sim, cpus: CpuList, sw: Switches)
    requires SwitchHead(start, freq, s, sw)
    ensures SwitchTimed(start, freq, SwitchLoop(maxtick, freq, s, cpus, sw).switches)
    decreases |s.future|
  {
    var st := Simulate(s, freq);
    PeriodStep(|sw.ticks|, freq);
    if st.exit == Exit(LimitReached) && Allowed(cpus, sw.active) && CanDrain(st.sim) {
      SwitchStep(start, freq, st.sim, sw, cpus);
      if maxtick - Advance(st.sim).tick > freq {
        SwitchLoopTimed(start, maxtick, freq, Advance(st.sim), Swapped(cpus), Switch(sw, st.sim, cpus));
      }
    }
  }

  lemma SwitchTimes(maxtick: int, freq: int, s: Sim, cpus: CpuList, active: set<Cpu>)
    ensures SwitchTimed(s.tick, freq, Repeat(maxtick, freq, s, cpus, active).switches)
  {
    SwitchLoopTimed(s.tick, maxtick, freq, s, cpus, Switches([], [], active));
  }

  predicate LateSwitch(maxtick: int, sw: Switches) {
    sw.ticks != [] && sw.ticks[|sw.ticks| - 1] > maxtick
  }

  lemma {:induction false} SwitchLoopFails(maxtick: int, freq: int, s: Sim, cpus: CpuList, sw: Switches)
    requires !LateSwitch(maxtick, sw)
    ensures var r := SwitchLoop(maxtick, freq, s, cpus, sw);
            && (r.outcome == Failed <==> freq < 0 || LateSwitch(maxtick, r.switches))
            && (0 <= freq <= maxtick - s.tick ==> (r.outcome == Failed <==> r.sim.tick > maxtick))
    decreases |s.future|
  {
    var st := Simulate(s, freq);
    if st.exit == Exit(LimitReached) && Allowed(cpus, sw.active) && CanDrain(st.sim) {
      if maxtick - Advance(st.sim).tick > freq {
        SwitchLoopFails(maxtick, freq, Advance(st.sim), Swapped(cpus), Switch(sw, st.sim, cpus));
      }
    }
  }

  /**
   The loop fails if and only if the period is negative or the drain of the last switch
   ends behind the maximum tick; if a period is left at the start, those are the runs that
   pass the maximum tick.
   */
  lemma SwitchFailsIff(maxtick: int, freq: int, s: Sim, cpus: CpuList, active: set<Cpu>)
    ensures var r := Repeat(maxtick, freq, s, cpus, active);
            && (r.outcome == Failed <==> freq < 0 || LateSwitch(maxtick, r.switches))
            && (0 <= freq <= maxtick - s.tick ==> (r.outcome == Failed <==> r.sim.tick > maxtick))
  {
    SwitchLoopFails(maxtick, freq, s, cpus, Switches([], [], active));
  }

  lemma {:induction false} SwitchLoopCount(start: nat, maxtick: int, freq: int, s: Sim, cpus: CpuList, sw: Switches)
    requires 0 <= freq && SwitchHead(start, freq, s, sw)
    requires (|sw.ticks| + 1) * freq <= maxtick - start
    requires sw.ticks != [] ==> (|sw.ticks| + 1) * freq < maxtick - start
    ensures var n := |SwitchLoop(maxtick, freq, s, cpus, sw).switches.ticks|;
            n * freq <= maxtick - start && (n > 1 ==> n * freq < maxtick - start)
    decreases |s.future|
  {
    var st := Simulate(s, freq);
    PeriodStep(|sw.ticks|, freq);
    PeriodStep(|sw.ticks| + 1, freq);
    if st.exit == Exit(LimitReached) && Allowed(cpus, sw.active) && CanDrain(st.sim) {
      SwitchStep(start, freq, st.sim, sw, cpus);
      if maxtick - Advance(st.sim).tick > freq {
        SwitchLoopCount(start, maxtick, freq, Advance(st.sim), Swapped(cpus), Switch(sw, st.sim, cpus));
      }
    }
  }

  /** If a period is left at the start, there are no more switches than periods left, and fewer if more than one. */
  lemma SwitchCount(maxtick: int, freq: int, s: Sim, cpus: CpuList, active: set<Cpu>)
    requires 0 <= freq <= maxtick - s.tick
    ensures var n := |Repeat(maxtick, freq, s, cpus, active).switches.ticks|;
            n * freq <= maxtick - s.tick && (n > 1 ==> n * freq < maxtick - s.tick)
  {
    SwitchLoopCount(s.tick, maxtick, freq, s, cpus, Switches([], [], active));
  }

  /** If no drain takes time, the loop keeps to its schedule and to the maximum tick. */
  lemma SwitchWithoutDrainTime(maxtick: int, freq: int, s: Sim, cpus: CpuList, active: set<Cpu>)
    requires 0 <= freq <= maxtick - s.tick
    requires NoDrainTime(Repeat(maxtick, freq, s, cpus, active).switches.drains)
    ensures var r := Repeat(maxtick, freq, s, cpus, active);
            && r.outcome != Failed && r.sim.tick <= maxtick
            && forall j: nat :: j < |r.switches.ticks| ==> r.switches.ticks[j] == s.tick + (j + 1) * freq
  {
    var r := Repeat(maxtick, freq, s, cpus, active);
    SwitchTimes(maxtick, freq, s, cpus, active);
    SwitchCount(maxtick, freq, s, cpus, active);
    SwitchFailsIff(maxtick, freq, s, cpus, active);
    forall j: nat | j < |r.switches.ticks| ensures r.switches.ticks[j] == s.tick + (j + 1) * freq {
      SumOfZeros(r.switches.drains[..j + 1]);
    }
  }

  lemma SwappedSets(cpus: CpuList)
    ensures Olds(Swapped(cpus)) == News(cpus) && News(Swapped(cpus)) == Olds(cpus)
  {
    var swapped := Swapped(cpus);
    forall x ensures x in Olds(swapped) <==> x in News(cpus) {
      if x in News(cpus) {
        var i :| 0 <= i < |cpus| && cpus[i].1 == x;
        assert swapped[i].0 == x;
      }
    }
    forall x ensures x in News(swapped) <==> x in Olds(cpus) {
      if x in Olds(cpus) {
        var i :| 0 <= i < |cpus| && cpus[i].0 == x;
        assert swapped[i].1 == x;
      }
    }
  }

  /** Who runs after n switches: the same cpus as at the start, or their counterparts. */
  function Running(cpus: CpuList, active: set<Cpu>, n: nat): set<Cpu> {
    if n % 2 == 0 then active else active - Olds(cpus) + News(cpus)
  }

  /** A switch that was allowed can be made back exactly when the old cpus need the same memory mode. */
  lemma SwitchBack(cpus: CpuList, active: set<Cpu>)
    requires Allowed(cpus, active)
    ensures Allowed(Swapped(cpus), active - Olds(cpus) + News(cpus)) <==> SameMode(Olds(cpus))
    ensures active - Olds(cpus) + News(cpus) - Olds(Swapped(cpus)) + News(Swapped(cpus)) == active
  {
    SwappedSets(cpus);
  }

  lemma {:induction false} SwitchLoopRoles(maxtick: int, freq: int, s: Sim, cpus: CpuList, sw: Switches)
    requires Allowed(cpus, sw.active) && SameMode(Olds(cpus))
    ensures var r := SwitchLoop(maxtick, freq, s, cpus, sw);
            && r.outcome != Refused
            && |r.switches.ticks| >= |sw.ticks|
            && r.switches.active == Running(cpus, sw.active, |r.switches.ticks| - |sw.ticks|)
    decreases |s.future|
  {
    var st := Simulate(s, freq);
    if st.exit == Exit(LimitReached) && CanDrain(st.sim) && maxtick - Advance(st.sim).tick > freq {
      var after := Switch(sw, st.sim, cpus);
      SwitchBack(cpus, sw.active);
      SwappedSets(cpus);
      SwitchLoopRoles(maxtick, freq, Advance(st.sim), Swapped(cpus), after);
    }
  }

  lemma {:induction false} NotAllowedNotMade(maxtick: int, freq: int, s: Sim, cpus: CpuList, sw: Switches)
    requires !Allowed(cpus, sw.active)
    ensures SwitchLoop(maxtick, freq, s, cpus, sw).switches == sw
  {
  }

  lemma {:induction false} SwitchOnlyOnce(maxtick: int, freq: int, s: Sim, cpus: CpuList, active: set<Cpu>)
    requires Allowed(cpus, active) && !SameMode(Olds(cpus))
    ensures var r := Repeat(maxtick, freq, s, cpus, active);
            |r.switches.ticks| <= 1 && r.switches.active == Running(cpus, active, |r.switches.ticks|)
  {
    var st, none := Simulate(s, freq), Switches([], [], active);
    SwitchBack(cpus, active);
    if st.exit == Exit(LimitReached) && CanDrain(st.sim) {
      NotAllowedNotMade(maxtick, freq, Advance(st.sim), Swapped(cpus), Switch(none, st.sim, cpus));
    }
  }

  /**
   A switch that is not allowed is never made. One that is, from and to cpus of one
   memory mode each, is never refused later, and the roles alternate; if the old cpus
   differ in their modes it is made at most once.
   */
  lemma RolesAlternate(maxtick: int, freq: int, s: Sim, cpus: CpuList, active: set<Cpu>)
    ensures var r := Repeat(maxtick, freq, s, cpus, active);
            && (!Allowed(cpus, active) ==> r.switches.ticks == [])
            && (Allowed(cpus, active) && SameMode(Olds(cpus)) ==> r.outcome != Refused)
            && (Allowed(cpus, active) && !SameMode(Olds(cpus)) ==> |r.switches.ticks| <= 1)
            && r.switches.active == Running(cpus, active, |r.switches.ticks|)
  {
    if Allowed(cpus, active) {
      if SameMode(Olds(cpus)) {
        SwitchLoopRoles(maxtick, freq, s, cpus, Switches([], [], active));
      } else {
        SwitchOnlyOnce(maxtick, freq, s, cpus, active);
      }
    }
  }

  lemma {:induction false} SwitchesGrow(maxtick: int, freq: int, s: Sim, cpus: CpuList, sw: Switches)
    ensures sw.ticks <= SwitchLoop(maxtick, freq, s, cpus, sw).switches.ticks
    decreases |s.future|
  {
    var st := Simulate(s, freq);
    if st.exit == Exit(LimitReached) && Allowed(cpus, sw.active) && CanDrain(st.sim) {
      if maxtick - Advance(st.sim).tick > freq {
        SwitchesGrow(maxtick, freq, Advance(st.sim), Swapped(cpus), Switch(sw, st.sim, cpus));
      }
    }
  }

  /** After a period and a drain of d ticks the run goes on with `tail` and fails before the second switch. */
  ghost predicate FailsAfterSwitch(maxtick: int, freq: nat, start: nat, cpus: CpuList, active: set<Cpu>,
                                   d: nat, tail: seq<Event>)
  {
    var r := Repeat(maxtick, freq, Sim(start, [Stop(freq, LimitReached), Drained(d)] + tail), cpus, active);
    r.outcome == Failed && |r.switches.ticks| == 1
  }

  lemma FirstSwitch(maxtick: int, freq: nat, start: nat, cpus: CpuList, active: set<Cpu>, d: nat, tail: seq<Event>)
    requires Allowed(cpus, active)
    ensures var r := Repeat(maxtick, freq, Sim(start, [Stop(freq, LimitReached), Drained(d)] + tail), cpus, active);
            r.switches.ticks != [] && r.switches.ticks[0] == start + freq + d
  {
    var run := [Stop(freq, LimitReached), Drained(d)] + tail;
    var s1 := Sim(start + freq, run[1..]);
    assert Simulate(Sim(start, run), freq) == Stopped(Exit(LimitReached), s1);
    assert CanDrain(s1) && Advance(s1).tick == start + freq + d;
    SwitchesGrow(maxtick, freq, Advance(s1), Swapped(cpus), Switch(Switches([], [], active), s1, cpus));
  }

  /** Some run fails behind the first switch if and only if its drain ends behind the maximum tick. */
  lemma DrainCanFailSwitchIff(maxtick: int, freq: nat, start: nat, cpus: CpuList, active: set<Cpu>, d: nat)
    requires Allowed(cpus, active)
    ensures (exists tail :: FailsAfterSwitch(maxtick, freq, start, cpus, active, d, tail)) <==>
            start + freq + d > maxtick
  {
    if start + freq + d > maxtick {
      var run := [Stop(freq, LimitReached), Drained(d)] + [];
      var s1 := Sim(start + freq, run[1..]);
      assert Simulate(Sim(start, run), freq) == Stopped(Exit(LimitReached), s1);
      assert CanDrain(s1) && Advance(s1).tick == start + freq + d;
      assert FailsAfterSwitch(maxtick, freq, start, cpus, active, d, []);
    }
    if tail :| FailsAfterSwitch(maxtick, freq, start, cpus, active, d, tail) {
      FirstSwitch(maxtick, freq, start, cpus, active, d, tail);
      SwitchFailsIff(maxtick, freq, Sim(start, [Stop(freq, LimitReached), Drained(d)] + tail), cpus, active);
    }
  }
}
