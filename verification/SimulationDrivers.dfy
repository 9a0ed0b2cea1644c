/**
 The checkpoint loop `scriptCheckpoints` (its branch for ticks) and the switching
 loop `repeatSwitch` of `Simulation.py`, run against a simulator that may stop at
 any time and for any reason, and that has to be drained, which takes simulated
 time, before a checkpoint is written or cpus are switched.
 */
module SimulationDrivers {

  datatype Cause = LimitReached | CheckpointInst | Other(text: string)

  /** What the simulator does next: a call of `simulate` ends, or a drain is finished. */
  datatype Event = Stop(ticks: nat, cause: Cause) | Drained(ticks: nat)

  /** `simulate(n)` takes at most n ticks, and exactly n when the limit is the cause. */
  predicate Legal(e: Event, n: int) {
    e.Stop? && e.ticks <= n && (e.cause == LimitReached ==> e.ticks == n)
  }

  /**
   The simulator: its tick and the events to come. Any list of events will do, and
   where it ends or does not fit the run is cut off, so that what is shown of all
   runs is shown of every beginning of every run.
   */
  datatype Sim = Sim(tick: nat, future: seq<Event>)

  /** What a driver gets: an exit event, an error for a negative number of ticks, or the end of the run. */
  datatype Exit = Exit(cause: Cause) | NegativeTicks | CutOff

  /** An exit and the simulator behind it. */
  datatype Stopped = Stopped(exit: Exit, sim: Sim)

  function Advance(s: Sim): Sim
    requires s.future != []
  {
    Sim(s.tick + s.future[0].ticks, s.future[1..])
  }

  function Simulate(s: Sim, n: int): Stopped {
    if n < 0 then Stopped(NegativeTicks, s)
    else if s.future == [] || !Legal(s.future[0], n) then Stopped(CutOff, s)
    else Stopped(Exit(s.future[0].cause), Advance(s))
  }

  predicate CanDrain(s: Sim) {
    s.future != [] && s.future[0].Drained?
  }

  /** The driver returned, stopped on a negative number of ticks, was refused a switch, or was cut off. */
  datatype Outcome = Finished | Failed | Refused | Cut

  /** The end of a driver that stops because `simulate` did not return. */
  function Abandoned(e: Exit): Outcome {
    if e == NegativeTicks then Failed else Cut
  }

  // ------------------------------------------------------------- scriptCheckpoints

  datatype Options = Options(when: int, period: int, maxtick: int, maxCheckpoints: int)

  /** The checkpoints so far: their ticks, the drains before them, and whether an instruction came in between. */
  datatype Log = Log(written: seq<nat>, drains: seq<nat>, skipped: bool)

  datatype Result = Result(outcome: Outcome, sim: Sim, log: Log, last: Exit)

  /** Lines 241-243 and 262-263: on to `target`, past the checkpoint instructions of the program. */
  function SkipInsts(st: Stopped, target: int): Stopped
    decreases |st.sim.future|
  {
    if st.exit != Exit(CheckpointInst) then st
    else
      var next := Simulate(st.sim, target - st.sim.tick);
      if next.exit.Exit? then SkipInsts(next, target) else next
  }

  /** `m5.checkpoint`: drain, then write. */
  function Write(log: Log, s: Sim, skipped: bool): Log
    requires CanDrain(s)
  {
    Log(log.written + [Advance(s).tick], log.drains + [s.future[0].ticks], skipped)
  }

  /** The head of the loop: what `sim_ticks`, the log and `exit_cause` are, and the last exit. */
  datatype Head = Head(sim: Sim, simTicks: int, log: Log, exitCause: Cause, last: Exit)

  datatype Next = Done(result: Result) | More(head: Head)

  /** The end of a period, with the checkpoint if the limit is what ended it. */
  function EndPeriod(end: Stopped, simTicks: int, log: Log, exitCause: Cause, skipped: bool): Next {
    if !end.exit.Exit? then Done(Result(Abandoned(end.exit), end.sim, log, Exit(CheckpointInst)))
    else if end.exit.cause != LimitReached then More(Head(end.sim, simTicks, log, exitCause, end.exit))
    else if !CanDrain(end.sim) then Done(Result(Cut, end.sim, log, end.exit))
    else More(Head(Advance(end.sim), simTicks, Write(log, end.sim, skipped), exitCause, end.exit))
  }

  /** Lines 252-266, once round the loop. */
  function Round(o: Options, h: Head): Next {
    if !(|h.log.written| < o.maxCheckpoints && h.exitCause == LimitReached) then
      Done(Result(Finished, h.sim, h.log, h.last))
    else if h.simTicks + o.period > o.maxtick then
      var st := Simulate(h.sim, o.maxtick - h.simTicks);
      if st.exit.Exit? then Done(Result(Finished, st.sim, h.log, st.exit))
      else Done(Result(Abandoned(st.exit), st.sim, h.log, h.last))
    else
      var st := Simulate(h.sim, o.period);
      if !st.exit.Exit? then Done(Result(Abandoned(st.exit), st.sim, h.log, h.last)) else
      var end := SkipInsts(st, h.simTicks + o.period);
      EndPeriod(end, h.simTicks + o.period, h.log, st.exit.cause, st.exit.cause != LimitReached)
  }

  lemma {:induction false} SkipShrinks(st: Stopped, target: int)
    ensures |SkipInsts(st, target).sim.future| <= |st.sim.future|
    decreases |st.sim.future|
  {
    if st.exit == Exit(CheckpointInst) {
      var next := Simulate(st.sim, target - st.sim.tick);
      if next.exit.Exit? {
        SkipShrinks(next, target);
      }
    }
  }

  lemma RoundShrinks(o: Options, h: Head)
    ensures Round(o, h).More? ==> |Round(o, h).head.sim.future| < |h.sim.future|
  {
    var st := Simulate(h.sim, o.period);
    SkipShrinks(st, h.simTicks + o.period);
  }

  function CheckpointLoop(o: Options, h: Head): Result
    decreases |h.sim.future|
  {
    RoundShrinks(o, h);
    match Round(o, h)
    case Done(r) => r
    case More(next) => CheckpointLoop(o, next)
  }

  const NO_LOG := Log([], [], false)

  /** Lines 239-250: on to the first checkpoint. */
  function Begin(o: Options, s: Sim): Next {
    var first := Simulate(s, o.when - s.tick);
    if !first.exit.Exit? then Done(Result(Abandoned(first.exit), first.sim, NO_LOG, CutOff)) else
    var end := SkipInsts(first, o.when);
    EndPeriod(end, o.when, NO_LOG, if end.exit.Exit? then end.exit.cause else LimitReached, false)
  }

  /** Lines 234-268. */
  function Script(o: Options, s: Sim): Result {
    match Begin(o, s)
    case Done(r) => r
    case More(h) => CheckpointLoop(o, h)
  }

  // ------------------------------------------------------------------ repeatSwitch

  /** A cpu model: whether it can hand over its state, and the memory mode it needs. */
  datatype Cpu = Cpu(id: nat, takesOver: bool, mode: nat)

  /** Pairs of the cpu to switch out and the cpu to take over. */
  type CpuList = seq<(Cpu, Cpu)>

  function Olds(cpus: CpuList): set<Cpu> {
    set i | 0 <= i < |cpus| :: cpus[i].0
  }

  function News(cpus: CpuList): set<Cpu> {
    set i | 0 <= i < |cpus| :: cpus[i].1
  }

  predicate CanTakeOver(cpus: set<Cpu>) {
    forall c :: c in cpus ==> c.takesOver
  }

  predicate SameMode(cpus: set<Cpu>) {
    forall c, d :: c in cpus && d in cpus ==> c.mode == d.mode
  }

  /**
   There is something to switch, the old cpus run, the new ones neither run nor are among
   the old, all can hand over, and the new ones need the same memory mode.
   */
  predicate Allowed(cpus: CpuList, active: set<Cpu>) {
    && cpus != [] && Olds(cpus) <= active && Olds(cpus) !! News(cpus) && News(cpus) !! active
    && CanTakeOver(Olds(cpus)) && CanTakeOver(News(cpus)) && SameMode(News(cpus))
  }

  function Swapped(cpus: CpuList): CpuList {
    seq(|cpus|, i requires 0 <= i < |cpus| => (cpus[i].1, cpus[i].0))
  }

  /** The switches so far: their ticks, the drains before them, and who runs now. */
  datatype Switches = Switches(ticks: seq<nat>, drains: seq<nat>, active: set<Cpu>)

  datatype SwitchResult = SwitchResult(outcome: Outcome, sim: Sim, switches: Switches)

  /** `m5.switchCpus`, once it is allowed: drain, then switch. */
  function Switch(sw: Switches, s: Sim, cpus: CpuList): Switches
    requires CanDrain(s)
  {
    Switches(sw.ticks + [Advance(s).tick], sw.drains + [s.future[0].ticks], sw.active - Olds(cpus) + News(cpus))
  }

  /** Lines 416-432. */
  function SwitchLoop(maxtick: int, freq: int, s: Sim, cpus: CpuList, sw: Switches): SwitchResult
    decreases |s.future|
  {
    var st := Simulate(s, freq);
    if !st.exit.Exit? then SwitchResult(Abandoned(st.exit), st.sim, sw)
    else if st.exit.cause != LimitReached then SwitchResult(Finished, st.sim, sw)
    else if !Allowed(cpus, sw.active) then SwitchResult(Refused, st.sim, sw)
    else if !CanDrain(st.sim) then SwitchResult(Cut, st.sim, sw)
    else
      var now, sw' := Advance(st.sim), Switch(sw, st.sim, cpus);
      if maxtick - now.tick <= freq then
        var end := Simulate(now, maxtick - now.tick);
        SwitchResult(if end.exit.Exit? then Finished else Abandoned(end.exit), end.sim, sw')
      else SwitchLoop(maxtick, freq, now, Swapped(cpus), sw')
  }

  function Repeat(maxtick: int, freq: int, s: Sim, cpus: CpuList, active: set<Cpu>): SwitchResult {
    SwitchLoop(maxtick, freq, s, cpus, Switches([], [], active))
  }

  // -------------------------------------------------------------------- the scripts

  class Simulator {
    var curTick: nat
    var future: seq<Event>
    var active: set<Cpu>

    ghost function Abs(): Sim
      reads this
    {
      Sim(curTick, future)
    }

    constructor (curTick: nat, future: seq<Event>, active: set<Cpu>)
      ensures Abs() == Sim(curTick, future) && this.active == active
    {
      this.curTick, this.future, this.active := curTick, future, active;
    }

    method Run(n: int) returns (e: Exit)
      modifies this`curTick, this`future
      ensures Simulate(old(Abs()), n) == Stopped(e, Abs())
    {
      if n < 0 {
        return NegativeTicks;
      }
      if future == [] || !Legal(future[0], n) {
        return CutOff;
      }
      e := Exit(future[0].cause);
      curTick, future := curTick + future[0].ticks, future[1..];
    }

    method Drain() returns (ok: bool, ticks: nat)
      modifies this`curTick, this`future
      ensures ok == CanDrain(old(Abs()))
      ensures ok ==> Abs() == Advance(old(Abs())) && ticks == old(future)[0].ticks
      ensures !ok ==> Abs() == old(Abs())
    {
      if future == [] || !future[0].Drained? {
        return false, 0;
      }
      ok, ticks := true, future[0].ticks;
      curTick, future := curTick + ticks, future[1..];
    }

    method SkipCheckpointInsts(first: Exit, target: int) returns (e: Exit)
      modifies this`curTick, this`future
      ensures SkipInsts(Stopped(first, old(Abs())), target) == Stopped(e, Abs())
    {
      e := first;
      while e == Exit(CheckpointInst)
        invariant SkipInsts(Stopped(first, old(Abs())), target) == SkipInsts(Stopped(e, Abs()), target)
        decreases |future|, if e.Exit? then 1 else 0
      {
        e := Run(target - curTick);
      }
    }

    /** The checks of `m5.switchCpus`, pair by pair. */
    method MaySwitch(cpus: CpuList) returns (ok: bool)
      ensures ok <==> Allowed(cpus, active)
    {
      if cpus == [] {
        return false;
      }
      var olds := {};
      for i := 0 to |cpus|
        invariant olds == Olds(cpus[..i])
      {
        OldsNewsStep(cpus, i);
        olds := olds + {cpus[i].0};
      }
      assert cpus[..|cpus|] == cpus;
      for i := 0 to |cpus|
        invariant Olds(cpus[..i]) <= active && News(cpus[..i]) !! olds && News(cpus[..i]) !! active
        invariant CanTakeOver(Olds(cpus[..i])) && CanTakeOver(News(cpus[..i]))
        invariant forall c :: c in News(cpus[..i]) ==> c.mode == cpus[0].1.mode
      {
        OldsNewsStep(cpus, i);
        OldsNewsPrefix(cpus, i + 1);
        if cpus[i].1 in olds {
          return false;
        }
        if cpus[i].1 in active || !cpus[i].1.takesOver {
          return false;
        }
        if cpus[i].1.mode != cpus[0].1.mode {
          FirstNew(cpus);
          return false;
        }
        if cpus[i].0 !in active || !cpus[i].0.takesOver {
          return false;
        }
      }
      ok := true;
    }
  }

  lemma FirstNew(cpus: CpuList)
    requires cpus != []
    ensures cpus[0].1 in News(cpus)
  {
  }

  lemma OldsNewsStep(cpus: CpuList, i: nat)
    requires i < |cpus|
    ensures Olds(cpus[..i + 1]) == Olds(cpus[..i]) + {cpus[i].0}
    ensures News(cpus[..i + 1]) == News(cpus[..i]) + {cpus[i].1}
  {
    var a, b := cpus[..i], cpus[..i + 1];
    assert b == a + [cpus[i]];
    forall x | x in Olds(a) ensures x in Olds(b) {
      var k :| 0 <= k < i && a[k].0 == x;
      assert b[k].0 == x;
    }
    forall x | x in News(a) ensures x in News(b) {
      var k :| 0 <= k < i && a[k].1 == x;
      assert b[k].1 == x;
    }
    assert b[i].0 in Olds(b) && b[i].1 in News(b);
  }

  lemma OldsNewsPrefix(cpus: CpuList, i: nat)
    requires i <= |cpus|
    ensures Olds(cpus[..i]) <= Olds(cpus) && News(cpus[..i]) <= News(cpus)
  {
    forall x | x in Olds(cpus[..i]) ensures x in Olds(cpus) {
      var k :| 0 <= k < i && cpus[..i][k].0 == x;
      assert cpus[k].0 == x;
    }
    forall x | x in News(cpus[..i]) ensures x in News(cpus) {
      var k :| 0 <= k < i && cpus[..i][k].1 == x;
      assert cpus[k].1 == x;
    }
  }

  /** Lines 425-428. */
  method SwapList(cpus: CpuList) returns (swapped: CpuList)
    ensures swapped == Swapped(cpus)
  {
    swapped := [];
    for i := 0 to |cpus|
      invariant |swapped| == i && forall k :: 0 <= k < i ==> swapped[k] == (cpus[k].1, cpus[k].0)
    {
      swapped := swapped + [(cpus[i].1, cpus[i].0)];
    }
  }

  method RepeatSwitch(sim: Simulator, cpus: CpuList, maxtick: int, freq: int) returns (r: Outcome, sw: Switches)
    modifies sim
    ensures SwitchResult(r, sim.Abs(), sw) == Repeat(maxtick, freq, old(sim.Abs()), cpus, old(sim.active))
    ensures sim.active == sw.active
  {
    var list := cpus;
    sw := Switches([], [], sim.active);
    ghost var whole := Repeat(maxtick, freq, sim.Abs(), cpus, sim.active);
    while true
      invariant sim.active == sw.active
      invariant SwitchLoop(maxtick, freq, sim.Abs(), list, sw) == whole
      decreases |sim.future|
    {
      var e := sim.Run(freq);
      if !e.Exit? {
        return Abandoned(e), sw;
      }
      if e.cause != LimitReached {
        return Finished, sw;
      }
      var ok := sim.MaySwitch(list);
      if !ok {
        return Refused, sw;
      }
      var drained, ticks := sim.Drain();
      if !drained {
        return Cut, sw;
      }
      sim.active := sim.active - Olds(list) + News(list);
      sw := Switches(sw.ticks + [sim.curTick], sw.drains + [ticks], sim.active);
      list := SwapList(list);
      if maxtick - sim.curTick <= freq {
        e := sim.Run(maxtick - sim.curTick);
        return if e.Exit? then Finished else Abandoned(e), sw;
      }
    }
  }

  /** Lines 245-247 and 264-266: the checkpoint, if the limit is what ended the period. */
  method CheckpointAtLimit(sim: Simulator, e: Exit, log: Log, skipped: bool,
                           ghost simTicks: int, ghost exitCause: Cause)
    returns (ok: bool, r: Outcome, after: Log, ghost last: Exit)
    modifies sim`curTick, sim`future
    ensures EndPeriod(Stopped(e, old(sim.Abs())), simTicks, log, exitCause, skipped) ==
            if ok then More(Head(sim.Abs(), simTicks, after, exitCause, last))
            else Done(Result(r, sim.Abs(), after, last))
  {
    if !e.Exit? {
      return false, Abandoned(e), log, Exit(CheckpointInst);
    }
    if e.cause != LimitReached {
      return true, Finished, log, e;
    }
    var drained, ticks := sim.Drain();
    if !drained {
      return false, Cut, log, e;
    }
    return true, Finished, Log(log.written + [sim.curTick], log.drains + [ticks], skipped), e;
  }

  /** Lines 254-266. */
  method CheckpointRound(sim: Simulator, o: Options, simTicks: int, log: Log, ghost last: Exit)
    returns (more: bool, r: Outcome, after: Log, exitCause: Cause, ghost last': Exit)
    requires |log.written| < o.maxCheckpoints
    modifies sim`curTick, sim`future
    ensures Round(o, Head(old(sim.Abs()), simTicks, log, LimitReached, last)) ==
            if more then More(Head(sim.Abs(), simTicks + o.period, after, exitCause, last'))
            else Done(Result(r, sim.Abs(), after, last'))
  {
    exitCause := LimitReached;
    if simTicks + o.period > o.maxtick {
      var e := sim.Run(o.maxtick - simTicks);
      if !e.Exit? {
        return false, Abandoned(e), log, exitCause, last;
      }
      return false, Finished, log, e.cause, e;
    }
    var e := sim.Run(o.period);
    if !e.Exit? {
      return false, Abandoned(e), log, exitCause, last;
    }
    exitCause := e.cause;
    e := sim.SkipCheckpointInsts(e, simTicks + o.period);
    more, r, after, last' :=
      CheckpointAtLimit(sim, e, log, exitCause != LimitReached, simTicks + o.period, exitCause);
  }

  /** Lines 239-250. */
  method FirstCheckpoint(sim: Simulator, o: Options)
    returns (more: bool, r: Outcome, log: Log, exitCause: Cause, ghost last: Exit)
    modifies sim`curTick, sim`future
    ensures Begin(o, old(sim.Abs())) ==
            if more then More(Head(sim.Abs(), o.when, log, exitCause, last)) else Done(Result(r, sim.Abs(), log, last))
  {
    exitCause := LimitReached;
    var e := sim.Run(o.when - sim.curTick);
    if !e.Exit? {
      return false, Abandoned(e), NO_LOG, exitCause, CutOff;
    }
    e := sim.SkipCheckpointInsts(e, o.when);
    exitCause := if e.Exit? then e.cause else LimitReached;
    more, r, log, last := CheckpointAtLimit(sim, e, NO_LOG, false, o.when, exitCause);
  }

  method ScriptCheckpoints(sim: Simulator, o: Options) returns (r: Outcome, log: Log, ghost last: Exit)
    modifies sim`curTick, sim`future
    ensures Result(r, sim.Abs(), log, last) == Script(o, old(sim.Abs()))
  {
    var more, exitCause;
    ghost var whole := Script(o, sim.Abs());
    more, r, log, exitCause, last := FirstCheckpoint(sim, o);
    if !more {
      return;
    }
    var simTicks := o.when;
    while |log.written| < o.maxCheckpoints && exitCause == LimitReached
      invariant CheckpointLoop(o, Head(sim.Abs(), simTicks, log, exitCause, last)) == whole
      decreases |sim.future|
    {
      RoundShrinks(o, Head(sim.Abs(), simTicks, log, exitCause, last));
      more, r, log, exitCause, last := CheckpointRound(sim, o, simTicks, log, last);
      if !more {
        return;
      }
      simTicks := simTicks + o.period;
    }
    r := Finished;
  }
}
