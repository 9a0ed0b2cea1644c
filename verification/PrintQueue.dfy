/**
 The print queue of `o3-pipeview.py`: retired instructions are queued in
 arrival order; when the queue grows beyond its upper threshold it is sorted by
 sequence number and printed down to its lower threshold.
 */
module PrintQueue {
  import opened Sorting

  /** A retired instruction: its sequence number and the tick of each stage, 0 when not reached. */
  datatype Inst = Inst(
    sn: int, fetch: nat, decode: nat, rename: nat, dispatch: nat,
    issue: nat, complete: nat, retire: nat, store: nat)

  /** The region of interest; a bound that is not positive is no bound. */
  datatype Window = Window(snStart: int, snStop: int, tickStart: int, tickStop: int, onlyCommitted: bool)

  predicate BySn(a: Inst, b: Inst) {
    a.sn <= b.sn
  }

  predicate Wanted(w: Window, x: Inst) {
    && !(w.snStart > 0 && x.sn < w.snStart)
    && !(w.snStop > 0 && x.sn > w.snStop)
    && !(w.tickStart > 0 && x.fetch < w.tickStart)
    && !(w.tickStop > 0 && x.fetch > w.tickStop)
    && !(w.onlyCommitted && x.retire == 0)
  }

  function Shown(w: Window, s: seq<Inst>): seq<Inst> {
    if s == [] then []
    else Shown(w, s[..|s| - 1]) + if Wanted(w, s[|s| - 1]) then [s[|s| - 1]] else []
  }

  /** The queue, and the instructions taken out of it so far. */
  datatype State = State(queue: seq<Inst>, handled: seq<Inst>)

  const EMPTY := State([], [])

  function Excess(length: nat, lower: nat): nat {
    if length > lower then length - lower else 0
  }

  function Flush(st: State, lower: nat): State {
    var s := Sort(st.queue, BySn);
    var m := Excess(|s|, lower);
    State(s[m..], st.handled + s[..m])
  }

  function Enqueue(st: State, x: Inst, min: nat, max: nat): State {
    var st' := st.(queue := st.queue + [x]);
    if |st'.queue| > max then Flush(st', min) else st'
  }

  function Run(st: State, trace: seq<Inst>, min: nat, max: nat): State {
    if trace == [] then st
    else Enqueue(Run(st, trace[..|trace| - 1], min, max), trace[|trace| - 1], min, max)
  }

  /** The instructions in the order in which they leave the queue, end of file included. */
  function Handled(trace: seq<Inst>, min: nat, max: nat): seq<Inst> {
    Flush(Run(EMPTY, trace, min, max), 0).handled
  }

  lemma {:induction false} ShownAppend(w: Window, s: seq<Inst>, t: seq<Inst>)
    ensures Shown(w, s + t) == Shown(w, s) + Shown(w, t)
  {
    if t == [] {
      assert s + t == s;
    } else {
      var n := |t| - 1;
      assert (s + t)[..|s + t| - 1] == s + t[..n];
      ShownAppend(w, s, t[..n]);
    }
  }

  lemma MoveOne(done: seq<Inst>, s: seq<Inst>, m: nat)
    requires m < |s|
    ensures done + s[..m] + [s[m]] == done + s[..m + 1] && s[m..][0] == s[m] && s[m..][1..] == s[m + 1..]
  {
  }

  class Viewer {
    const window: Window
    const maxThreshold: nat
    const minThreshold: nat
    var queue: seq<Inst>
    var printed: seq<Inst>
    ghost var handled: seq<Inst>

    ghost function Abs(): State
      reads this
    {
      State(queue, handled)
    }

    /** Exactly the wanted ones among the handled instructions are printed, in that order. */
    ghost predicate Valid()
      reads this
    {
      printed == Shown(window, handled)
    }

    constructor (window: Window, minThreshold: nat, maxThreshold: nat)
      ensures Valid() && Abs() == EMPTY
      ensures this.window == window && this.minThreshold == minThreshold && this.maxThreshold == maxThreshold
    {
      this.window, this.minThreshold, this.maxThreshold := window, minThreshold, maxThreshold;
      queue, printed, handled := [], [], [];
    }

    /** One turn of the printing loop: take the first instruction out, print it if it is wanted. */
    method PrintFirst()
      requires Valid() && queue != []
      modifies this
      ensures Valid() && queue == old(queue)[1..] && handled == old(handled) + [old(queue)[0]]
    {
      var item := queue[0];
      queue := queue[1..];
      ShownAppend(window, handled, [item]);
      handled := handled + [item];
      if Wanted(window, item) {
        printed := printed + [item];
      }
    }

    method PrintInsts(lower: nat)
      requires Valid()
      modifies this
      ensures Valid() && Abs() == Flush(old(Abs()), lower)
    {
      queue := Sort(queue, BySn);
      ghost var s := queue;
      ghost var m := 0;
      while |queue| > lower
        invariant m <= Excess(|s|, lower)
        invariant queue == s[m..] && handled == old(handled) + s[..m]
        invariant Valid()
      {
        MoveOne(old(handled), s, m);
        PrintFirst();
        m := m + 1;
      }
    }

    method QueueInst(x: Inst)
      requires Valid()
      modifies this
      ensures Valid() && Abs() == Enqueue(old(Abs()), x, minThreshold, maxThreshold)
    {
      queue := queue + [x];
      if |queue| > maxThreshold {
        PrintInsts(minThreshold);
      }
    }

    /** The main loop from the first retired instruction to the end of the file. */
    method ProcessTrace(trace: seq<Inst>)
      requires Valid() && Abs() == EMPTY
      modifies this
      ensures printed == Shown(window, Handled(trace, minThreshold, maxThreshold))
      ensures queue == []
    {
      for i := 0 to |trace|
        invariant Valid() && Abs() == Run(EMPTY, trace[..i], minThreshold, maxThreshold)
      {
        assert trace[..i + 1][..i] == trace[..i];
        QueueInst(trace[i]);
      }
      assert trace[..|trace|] == trace;
      PrintInsts(0);
    }
  }
}
