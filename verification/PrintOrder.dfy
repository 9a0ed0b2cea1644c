/**
 In which order the print queue lets instructions out. Nothing is lost or
 repeated whatever the trace; the output is the stable sort of the whole trace
 exactly when, at each flush, no later arrival belongs among the instructions
 being printed; and that is so when no instruction arrives more than the lower
 threshold of places behind its place in the sorted trace.
 */
module PrintOrder {
  import opened Arith
  import opened Sorting
  import opened PrintQueue

  // ----------------------------------------------------------- a stable sort

  /** The instructions with sequence number `n`, in their order in `s`. */
  ghost function OfSn(s: seq<Inst>, n: int): seq<Inst> {
    if s == [] then []
    else OfSn(s[..|s| - 1], n) + if s[|s| - 1].sn == n then [s[|s| - 1]] else []
  }

  /** `s` and `t` hold the same instructions, those with equal numbers in the same order. */
  ghost predicate StablyEqual(s: seq<Inst>, t: seq<Inst>) {
    forall n :: OfSn(s, n) == OfSn(t, n)
  }

  lemma BySnOrders()
    ensures TotalPreorder(BySn)
  {
  }

  lemma {:induction false} OfSnAppend(s: seq<Inst>, t: seq<Inst>, n: int)
    ensures OfSn(s + t, n) == OfSn(s, n) + OfSn(t, n)
  {
    if t == [] {
      assert s + t == s;
    } else {
      assert (s + t)[..|s + t| - 1] == s + t[..|t| - 1];
      OfSnAppend(s, t[..|t| - 1], n);
    }
  }

  lemma {:induction false} OfSnNone(s: seq<Inst>, n: int)
    requires forall x :: x in s ==> x.sn != n
    ensures OfSn(s, n) == []
  {
    if s != [] {
      OfSnNone(s[..|s| - 1], n);
    }
  }

  lemma {:induction false} OfSnMembers(s: seq<Inst>, n: int)
    ensures forall x :: x in OfSn(s, n) <==> x in s && x.sn == n
  {
    if s != [] {
      OfSnMembers(s[..|s| - 1], n);
      assert s == s[..|s| - 1] + [s[|s| - 1]];
    }
  }

  /** An instruction in front of greater ones might as well come behind them. */
  lemma {:induction false} FrontOrBack(x: Inst, s: seq<Inst>, n: int)
    requires Sorted(s, BySn) && (s != [] ==> !BySn(s[0], x))
    ensures OfSn([x] + s, n) == OfSn(s + [x], n)
  {
    OfSnAppend([x], s, n);
    OfSnAppend(s, [x], n);
    if x.sn == n {
      OfSnNone(s, n);
    } else {
      OfSnNone([x], n);
    }
  }

  lemma {:induction false} InsertStable(x: Inst, s: seq<Inst>, n: int)
    requires Sorted(s, BySn)
    ensures OfSn(Insert(x, s, BySn), n) == OfSn(s + [x], n)
  {
    if s == [] || !BySn(s[0], x) {
      FrontOrBack(x, s, n);
    } else {
      var h, t := [s[0]], s[1..];
      InsertStable(x, t, n);
      OfSnAppend(h, Insert(x, t, BySn), n);
      OfSnAppend(h, t + [x], n);
      assert h + (t + [x]) == s + [x];
    }
  }

  lemma {:induction false} SortStable(s: seq<Inst>, n: int)
    ensures OfSn(Sort(s, BySn), n) == OfSn(s, n)
  {
    if s != [] {
      var t := s[..|s| - 1];
      SortStable(t, n);
      BySnOrders();
      SortSorted(t, BySn);
      InsertStable(s[|s| - 1], Sort(t, BySn), n);
      OfSnAppend(Sort(t, BySn), [s[|s| - 1]], n);
      OfSnAppend(t, [s[|s| - 1]], n);
      assert s == t + [s[|s| - 1]];
    }
  }

  lemma LastOfSn(s: seq<Inst>)
    requires s != []
    ensures var l := s[|s| - 1]; OfSn(s, l.sn) != [] && OfSn(s, l.sn)[|OfSn(s, l.sn)| - 1] == l
  {
  }

  lemma SameLast(s: seq<Inst>, t: seq<Inst>)
    requires Sorted(s, BySn) && Sorted(t, BySn) && StablyEqual(s, t) && s != [] && t != []
    ensures s[|s| - 1] == t[|t| - 1]
  {
    var l, k := s[|s| - 1], t[|t| - 1];
    LastOfSn(s);
    LastOfSn(t);
    OfSnMembers(t, l.sn);
    OfSnMembers(s, k.sn);
    assert OfSn(s, l.sn) == OfSn(t, l.sn) && OfSn(s, k.sn) == OfSn(t, k.sn);
    assert l in t && k in s;
    assert l.sn <= k.sn && k.sn <= l.sn;
  }

  lemma DropLastStablyEqual(s: seq<Inst>, t: seq<Inst>)
    requires s != [] && t != [] && s[|s| - 1] == t[|t| - 1] && StablyEqual(s, t)
    ensures StablyEqual(s[..|s| - 1], t[..|t| - 1])
  {
    var l, s', t' := s[|s| - 1], s[..|s| - 1], t[..|t| - 1];
    forall n ensures OfSn(s', n) == OfSn(t', n) {
      var e := if l.sn == n then [l] else [];
      assert OfSn(s', n) + e == OfSn(s, n) == OfSn(t, n) == OfSn(t', n) + e;
      assert OfSn(s', n) == (OfSn(s', n) + e)[..|OfSn(s', n)|];
      assert OfSn(t', n) == (OfSn(t', n) + e)[..|OfSn(t', n)|];
    }
  }

  /** Two sorted lists that are stably equal are equal: this is what the sort is. */
  lemma {:induction false} SortedUnique(s: seq<Inst>, t: seq<Inst>)
    requires Sorted(s, BySn) && Sorted(t, BySn) && StablyEqual(s, t)
    ensures s == t
  {
    StablyEqualMultiset(s, t);
    assert |s| == |multiset(s)| && |t| == |multiset(t)|;
    if s != [] {
      SameLast(s, t);
      DropLastStablyEqual(s, t);
      SortedUnique(s[..|s| - 1], t[..|t| - 1]);
      assert s == s[..|s| - 1] + [s[|s| - 1]] && t == t[..|t| - 1] + [t[|t| - 1]];
    }
  }

  lemma {:induction false} SortUnique(s: seq<Inst>, t: seq<Inst>)
    requires Sorted(t, BySn) && StablyEqual(s, t)
    ensures t == Sort(s, BySn)
  {
    BySnOrders();
    SortSorted(s, BySn);
    forall n ensures OfSn(Sort(s, BySn), n) == OfSn(t, n) {
      SortStable(s, n);
      assert OfSn(s, n) == OfSn(t, n);
    }
    SortedUnique(Sort(s, BySn), t);
  }

  // ------------------------------------------------- nothing lost, none twice

  ghost function All(st: State): seq<Inst> {
    st.handled + st.queue
  }

  lemma FlushKeepsAll(st: State, lower: nat)
    ensures StablyEqual(All(Flush(st, lower)), All(st))
  {
    var s := Sort(st.queue, BySn);
    FlushAll(st, lower);
    forall n ensures OfSn(st.handled + s, n) == OfSn(All(st), n) {
      OfSnAppend(st.handled, s, n);
      OfSnAppend(st.handled, st.queue, n);
      SortStable(st.queue, n);
    }
  }

  lemma EnqueueKeepsAll(st: State, x: Inst, min: nat, max: nat)
    ensures StablyEqual(All(Enqueue(st, x, min, max)), All(st) + [x])
  {
    var st' := st.(queue := st.queue + [x]);
    assert All(st') == All(st) + [x];
    if |st'.queue| > max {
      FlushKeepsAll(st', min);
    }
  }

  lemma StablyEqualTransitive(s: seq<Inst>, t: seq<Inst>, u: seq<Inst>)
    requires StablyEqual(s, t) && StablyEqual(t, u)
    ensures StablyEqual(s, u)
  {
    forall n ensures OfSn(s, n) == OfSn(u, n) {
      assert OfSn(s, n) == OfSn(t, n) && OfSn(t, n) == OfSn(u, n);
    }
  }

  lemma StablyEqualSnoc(s: seq<Inst>, t: seq<Inst>, x: Inst)
    requires StablyEqual(s, t)
    ensures StablyEqual(s + [x], t + [x])
  {
    forall n ensures OfSn(s + [x], n) == OfSn(t + [x], n) {
      OfSnAppend(s, [x], n);
      OfSnAppend(t, [x], n);
      assert OfSn(s, n) == OfSn(t, n);
    }
  }

  lemma {:induction false} RunKeepsAll(st: State, trace: seq<Inst>, min: nat, max: nat)
    ensures StablyEqual(All(Run(st, trace, min, max)), All(st) + trace)
    ensures st.handled <= Run(st, trace, min, max).handled
  {
    if trace == [] {
      assert All(st) + trace == All(st);
    } else {
      var init, x := trace[..|trace| - 1], trace[|trace| - 1];
      var before := Run(st, init, min, max);
      RunKeepsAll(st, init, min, max);
      EnqueueKeepsAll(before, x, min, max);
      StablyEqualSnoc(All(before), All(st) + init, x);
      assert All(st) + init + [x] == All(st) + trace;
      StablyEqualTransitive(All(Run(st, trace, min, max)), All(before) + [x], All(st) + trace);
    }
  }

  /** Every record of the trace is handled exactly once, equal sequence numbers in arrival order. */
  lemma HandledOnce(trace: seq<Inst>, min: nat, max: nat)
    ensures StablyEqual(Handled(trace, min, max), trace)
    ensures multiset(Handled(trace, min, max)) == multiset(trace)
  {
    var st := Run(EMPTY, trace, min, max);
    RunKeepsAll(EMPTY, trace, min, max);
    FlushKeepsAll(st, 0);
    assert All(Flush(st, 0)) == Handled(trace, min, max);
    assert All(EMPTY) + trace == trace;
    StablyEqualTransitive(Handled(trace, min, max), All(st), trace);
    StablyEqualMultiset(Handled(trace, min, max), trace);
  }

  lemma {:induction false} OfSnCount(s: seq<Inst>, x: Inst)
    ensures multiset(OfSn(s, x.sn))[x] == multiset(s)[x]
  {
    if s != [] {
      OfSnCount(s[..|s| - 1], x);
      assert s == s[..|s| - 1] + [s[|s| - 1]];
    }
  }

  lemma StablyEqualMultiset(s: seq<Inst>, t: seq<Inst>)
    requires StablyEqual(s, t)
    ensures multiset(s) == multiset(t)
  {
    forall x: Inst ensures multiset(s)[x] == multiset(t)[x] {
      OfSnCount(s, x);
      OfSnCount(t, x);
      assert OfSn(s, x.sn) == OfSn(t, x.sn);
    }
  }

  // ------------------------------------------------------ when a flush happens

  /** The k-th arrival makes the queue overflow. */
  ghost predicate FlushAt(k: nat, min: nat, max: nat)
    requires min <= max
  {
    k > max && (k - max - 1) % (max - min + 1) == 0
  }

  ghost function QueueLength(k: nat, min: nat, max: nat): nat
    requires min <= max
  {
    if k <= max then k else min + (k - max - 1) % (max - min + 1)
  }

  lemma EnqueueLength(st: State, x: Inst, min: nat, max: nat)
    requires min <= max
    ensures var st' := Enqueue(st, x, min, max);
            && |st'.queue| == (if |st.queue| + 1 > max then min else |st.queue| + 1)
            && |st'.handled| + |st'.queue| == |st.handled| + |st.queue| + 1
  {
  }

  lemma QueueLengthStep(k: nat, min: nat, max: nat)
    requires min <= max
    ensures QueueLength(k + 1, min, max) ==
            if QueueLength(k, min, max) + 1 > max then min else QueueLength(k, min, max) + 1
    ensures FlushAt(k + 1, min, max) <==> QueueLength(k, min, max) + 1 > max
    ensures QueueLength(k, min, max) <= max
  {
    var m := max - min + 1;
    if k > max {
      ModStep(k - max - 1, m);
    } else if k == max {
      DivModUnique(0, m, 0, 0);
    }
  }

  /** How long the queue is after any number of arrivals, which is never more than the upper threshold. */
  lemma {:induction false} RunLength(trace: seq<Inst>, min: nat, max: nat)
    requires min <= max
    ensures |Run(EMPTY, trace, min, max).queue| <= max
    ensures |Run(EMPTY, trace, min, max).queue| == QueueLength(|trace|, min, max)
    ensures |Run(EMPTY, trace, min, max).handled| == |trace| - QueueLength(|trace|, min, max)
  {
    QueueLengthStep(|trace|, min, max);
    if trace != [] {
      var n := |trace| - 1;
      RunLength(trace[..n], min, max);
      EnqueueLength(Run(EMPTY, trace[..n], min, max), trace[n], min, max);
      QueueLengthStep(n, min, max);
    }
  }

  /** Which arrivals make the queue overflow. */
  lemma {:induction false} OverflowsIff(trace: seq<Inst>, min: nat, max: nat)
    requires min <= max
    ensures |Run(EMPTY, trace, min, max).queue| + 1 > max <==> FlushAt(|trace| + 1, min, max)
  {
    RunLength(trace, min, max);
    QueueLengthStep(|trace|, min, max);
  }

  // --------------------------------------------------------- counting by number

  /** How many instructions have a sequence number of at most `y`. */
  ghost function CountUpTo(s: seq<Inst>, y: int): nat {
    if s == [] then 0
    else CountUpTo(s[..|s| - 1], y) + if s[|s| - 1].sn <= y then 1 else 0
  }

  lemma {:induction false} CountAppend(s: seq<Inst>, t: seq<Inst>, y: int)
    ensures CountUpTo(s + t, y) == CountUpTo(s, y) + CountUpTo(t, y)
  {
    if t == [] {
      assert s + t == s;
    } else {
      assert (s + t)[..|s + t| - 1] == s + t[..|t| - 1];
      CountAppend(s, t[..|t| - 1], y);
    }
  }

  lemma {:induction false} CountPermuted(s: seq<Inst>, t: seq<Inst>, y: int)
    requires multiset(s) == multiset(t)
    ensures CountUpTo(s, y) == CountUpTo(t, y)
    decreases |s|
  {
    if s == [] {
      assert |t| == |multiset(t)| == 0;
    } else {
      var x := s[|s| - 1];
      assert s == s[..|s| - 1] + [x];
      assert x in multiset(t);
      var i :| 0 <= i < |t| && t[i] == x;
      var t' := t[..i] + t[i + 1..];
      assert t == t[..i] + ([x] + t[i + 1..]);
      assert multiset(t') == multiset(t) - multiset{x};
      assert multiset(s[..|s| - 1]) == multiset(s) - multiset{x};
      CountPermuted(s[..|s| - 1], t', y);
      CountAppend(t[..i], [x] + t[i + 1..], y);
      CountAppend([x], t[i + 1..], y);
      CountAppend(t[..i], t[i + 1..], y);
    }
  }

  lemma {:induction false} CountAll(s: seq<Inst>, y: int)
    ensures CountUpTo(s, y) <= |s|
    ensures CountUpTo(s, y) == |s| <==> forall x :: x in s ==> x.sn <= y
  {
    if s != [] {
      var t, l := s[..|s| - 1], s[|s| - 1];
      CountAll(t, y);
      assert s == t + [l];
      assert l in s;
      assert forall x :: x in t ==> x in s;
    }
  }

  lemma {:induction false} CountNone(s: seq<Inst>, y: int)
    requires forall x :: x in s ==> x.sn > y
    ensures CountUpTo(s, y) == 0
  {
    if s != [] {
      CountNone(s[..|s| - 1], y);
    }
  }

  lemma {:induction false} CountMonotone(s: seq<Inst>, y: int, z: int)
    requires y <= z
    ensures CountUpTo(s, y) <= CountUpTo(s, z)
  {
    if s != [] {
      CountMonotone(s[..|s| - 1], y, z);
    }
  }

  /** In a sorted list the instructions up to `y` come first. */
  lemma {:induction false} CountInSorted(s: seq<Inst>, y: int, i: nat)
    requires Sorted(s, BySn) && i < CountUpTo(s, y) && i < |s|
    ensures s[i].sn <= y
  {
    var n := |s| - 1;
    assert BySn(s[i], s[n]) || i == n;
    CountAll(s[..n], y);
    if s[n].sn > y {
      CountInSorted(s[..n], y, i);
    }
  }

  // ---------------------------------------------------- exactly when it is sorted

  /** At every flush, each later arrival has at least as many predecessors queued as are printed. */
  ghost predicate Timely(trace: seq<Inst>, min: nat, max: nat)
    requires min <= max
  {
    forall k: nat, j: nat :: FlushAt(k, min, max) && k <= j < |trace| ==> CountUpTo(trace[..k], trace[j].sn) >= k - min
  }

  ghost predicate AllUpTo(s: seq<Inst>, t: seq<Inst>) {
    forall x, y :: x in s && y in t ==> x.sn <= y.sn
  }

  /** What a timely trace keeps: what is out is sorted and below all that is still to come. */
  ghost predicate SortedSoFar(st: State, rest: seq<Inst>) {
    Sorted(st.handled, BySn) && AllUpTo(st.handled, st.queue) && AllUpTo(st.handled, rest)
  }

  lemma FlushAll(st: State, lower: nat)
    ensures All(Flush(st, lower)) == st.handled + Sort(st.queue, BySn)
  {
    var s := Sort(st.queue, BySn);
    var m := Excess(|s|, lower);
    assert s[..m] + s[m..] == s;
  }

  lemma SortedConcat(a: seq<Inst>, b: seq<Inst>)
    requires Sorted(a, BySn) && Sorted(b, BySn) && AllUpTo(a, b)
    ensures Sorted(a + b, BySn)
  {
    var s := a + b;
    forall i, j | 0 <= i < j < |s| ensures BySn(s[i], s[j]) {
      if i < |a| <= j {
        assert a[i] in a && b[j - |a|] in b;
      }
    }
  }

  lemma FlushSorts(st: State, lower: nat)
    requires Sorted(st.handled, BySn) && AllUpTo(st.handled, st.queue)
    ensures Sorted(All(Flush(st, lower)), BySn)
    ensures multiset(All(Flush(st, lower))) == multiset(All(st))
  {
    FlushAll(st, lower);
    BySnOrders();
    SortSorted(st.queue, BySn);
    SortMembers(st.queue, BySn);
    SortMultiset(st.queue, BySn);
    SortedConcat(st.handled, Sort(st.queue, BySn));
  }

  lemma SortedSplit(s: seq<Inst>, m: nat)
    requires m <= |s| && Sorted(s, BySn)
    ensures Sorted(s[..m], BySn) && AllUpTo(s[..m], s[m..])
  {
    forall x, y | x in s[..m] && y in s[m..] ensures x.sn <= y.sn {
      var i :| 0 <= i < m && s[i] == x;
      var j :| 0 <= j < |s[m..]| && s[m..][j] == y;
      assert s[m + j] == y;
    }
  }

  /** A flush whose printed part is below the rest of the trace keeps the order. */
  lemma FlushKeepsSorted(st: State, rest: seq<Inst>, lower: nat)
    requires Sorted(st.handled, BySn) && AllUpTo(st.handled, st.queue)
    requires forall y :: y in rest ==> CountUpTo(All(st), y.sn) >= |Flush(st, lower).handled|
    ensures SortedSoFar(Flush(st, lower), rest)
  {
    var st' := Flush(st, lower);
    FlushSorts(st, lower);
    var all := All(st');
    SortedSplit(all, |st'.handled|);
    assert all[..|st'.handled|] == st'.handled && all[|st'.handled|..] == st'.queue;
    forall x, y | x in st'.handled && y in rest ensures x.sn <= y.sn {
      CountPermuted(all, All(st), y.sn);
      var i :| 0 <= i < |st'.handled| && st'.handled[i] == x;
      CountInSorted(all, y.sn, i);
      assert all[i] == x;
    }
  }

  lemma {:induction false} FlushAtLength(trace: seq<Inst>, min: nat, max: nat)
    requires min <= max && trace != [] && FlushAt(|trace|, min, max)
    ensures Run(EMPTY, trace, min, max) ==
            Flush(PreFlush(trace, min, max), min)
    ensures |Run(EMPTY, trace, min, max).handled| == |trace| - min
  {
    var n := |trace| - 1;
    OverflowsIff(trace[..n], min, max);
    RunLength(trace[..n], min, max);
    EnqueueLength(Run(EMPTY, trace[..n], min, max), trace[n], min, max);
  }

  /** The state in which the last arrival of `trace` is queued and nothing printed for it yet. */
  ghost function PreFlush(trace: seq<Inst>, min: nat, max: nat): State
    requires trace != []
  {
    var st := Run(EMPTY, trace[..|trace| - 1], min, max);
    st.(queue := st.queue + [trace[|trace| - 1]])
  }

  lemma {:induction false} NoFlush(trace: seq<Inst>, min: nat, max: nat)
    requires min <= max && trace != [] && !FlushAt(|trace|, min, max)
    ensures Run(EMPTY, trace, min, max) == PreFlush(trace, min, max)
  {
    OverflowsIff(trace[..|trace| - 1], min, max);
  }

  lemma PreFlushAll(trace: seq<Inst>, min: nat, max: nat)
    requires trace != []
    ensures multiset(All(PreFlush(trace, min, max))) == multiset(trace)
  {
    var n := |trace| - 1;
    var st := Run(EMPTY, trace[..n], min, max);
    RunKeepsAll(EMPTY, trace[..n], min, max);
    assert All(EMPTY) + trace[..n] == trace[..n];
    StablyEqualMultiset(All(st), trace[..n]);
    assert All(PreFlush(trace, min, max)) == All(st) + [trace[n]];
    assert trace == trace[..n] + [trace[n]];
  }

  lemma TimelyCounts(trace: seq<Inst>, k: nat, min: nat, max: nat)
    requires min <= max && 0 < k <= |trace| && Timely(trace, min, max) && FlushAt(k, min, max)
    ensures forall y :: y in trace[k..] ==> CountUpTo(All(PreFlush(trace[..k], min, max)), y.sn) >= k - min
  {
    var p := trace[..k];
    PreFlushAll(p, min, max);
    forall y | y in trace[k..] ensures CountUpTo(All(PreFlush(p, min, max)), y.sn) >= k - min {
      CountPermuted(All(PreFlush(p, min, max)), p, y.sn);
      var j :| 0 <= j < |trace[k..]| && trace[k..][j] == y;
      assert trace[k + j] == y;
    }
  }

  lemma PreFlushSorted(st: State, x: Inst, rest: seq<Inst>)
    requires SortedSoFar(st, [x] + rest)
    ensures SortedSoFar(st.(queue := st.queue + [x]), rest)
  {
    var r := [x] + rest;
    assert r[0] == x;
    assert forall y :: y in rest ==> y in r;
  }

  lemma {:induction false} TimelyRunSorted(trace: seq<Inst>, k: nat, min: nat, max: nat)
    requires min <= max && k <= |trace| && Timely(trace, min, max)
    ensures SortedSoFar(Run(EMPTY, trace[..k], min, max), trace[k..])
  {
    if k > 0 {
      TimelyRunSorted(trace, k - 1, min, max);
      var p := trace[..k];
      assert p[..k - 1] == trace[..k - 1];
      assert trace[k - 1..] == [trace[k - 1]] + trace[k..];
      PreFlushSorted(Run(EMPTY, p[..k - 1], min, max), trace[k - 1], trace[k..]);
      if FlushAt(k, min, max) {
        FlushAtLength(p, min, max);
        TimelyCounts(trace, k, min, max);
        FlushKeepsSorted(PreFlush(p, min, max), trace[k..], min);
      } else {
        NoFlush(p, min, max);
      }
    }
  }

  lemma TimelySorted(trace: seq<Inst>, min: nat, max: nat)
    requires min <= max && Timely(trace, min, max)
    ensures Sorted(Handled(trace, min, max), BySn)
  {
    TimelyRunSorted(trace, |trace|, min, max);
    assert trace[..|trace|] == trace;
    var st := Run(EMPTY, trace, min, max);
    FlushSorts(st, 0);
    assert All(Flush(st, 0)) == Handled(trace, min, max);
  }

  lemma {:induction false} RunSplit(st: State, s: seq<Inst>, t: seq<Inst>, min: nat, max: nat)
    ensures Run(st, s + t, min, max) == Run(Run(st, s, min, max), t, min, max)
  {
    if t == [] {
      assert s + t == s;
    } else {
      assert (s + t)[..|s + t| - 1] == s + t[..|t| - 1];
      RunSplit(st, s, t[..|t| - 1], min, max);
    }
  }

  lemma TailMultiset(h: seq<Inst>, a: seq<Inst>, q: seq<Inst>, r: seq<Inst>)
    requires a <= h && multiset(h) == multiset(a + q + r)
    ensures multiset(h[|a|..]) == multiset(q) + multiset(r)
  {
    assert h == a + h[|a|..];
    assert multiset(h[|a|..]) == multiset(h) - multiset(a);
    assert multiset(a + q + r) == multiset(a) + multiset(q) + multiset(r);
  }

  /** What is out after k arrivals stays in front; the later arrivals come behind it. */
  lemma {:induction false} HandledSplit(trace: seq<Inst>, k: nat, min: nat, max: nat)
    requires k <= |trace|
    ensures var st := Run(EMPTY, trace[..k], min, max);
            && st.handled <= Handled(trace, min, max)
            && multiset(Handled(trace, min, max)[|st.handled|..]) == multiset(st.queue) + multiset(trace[k..])
  {
    var st := Run(EMPTY, trace[..k], min, max);
    assert trace == trace[..k] + trace[k..];
    RunSplit(EMPTY, trace[..k], trace[k..], min, max);
    RunKeepsAll(st, trace[k..], min, max);
    var end := Run(st, trace[k..], min, max);
    FlushKeepsAll(end, 0);
    StablyEqualTransitive(All(Flush(end, 0)), All(end), All(st) + trace[k..]);
    StablyEqualMultiset(All(Flush(end, 0)), All(st) + trace[k..]);
    assert All(Flush(end, 0)) == Handled(trace, min, max);
    TailMultiset(Handled(trace, min, max), st.handled, st.queue, trace[k..]);
  }

  lemma SortedTimely(trace: seq<Inst>, min: nat, max: nat)
    requires min <= max && Sorted(Handled(trace, min, max), BySn)
    ensures Timely(trace, min, max)
  {
    var h := Handled(trace, min, max);
    forall k: nat, j: nat | FlushAt(k, min, max) && k <= j < |trace|
      ensures CountUpTo(trace[..k], trace[j].sn) >= k - min
    {
      var p, y := trace[..k], trace[j];
      var st := Run(EMPTY, p, min, max);
      FlushAtLength(p, min, max);
      HandledSplit(trace, k, min, max);
      var n := |st.handled|;
      assert trace[k..][j - k] == y;
      assert y in multiset(h[n..]);
      SortedSplit(h, n);
      assert h[..n] == st.handled;
      CountAll(st.handled, y.sn);
      CountAppend(st.handled, st.queue, y.sn);
      RunKeepsAll(EMPTY, p, min, max);
      assert All(EMPTY) + p == p;
      StablyEqualMultiset(All(st), p);
      CountPermuted(All(st), p, y.sn);
    }
  }

  /** The output is the stable sort of the whole trace exactly when the trace is timely. */
  lemma {:induction false} SortedIffTimely(trace: seq<Inst>, min: nat, max: nat)
    requires min <= max
    ensures Handled(trace, min, max) == Sort(trace, BySn) <==> Timely(trace, min, max)
  {
    BySnOrders();
    SortSorted(trace, BySn);
    if Timely(trace, min, max) {
      TimelySorted(trace, min, max);
      HandledOnce(trace, min, max);
      SortUnique(trace, Handled(trace, min, max));
    }
    if Handled(trace, min, max) == Sort(trace, BySn) {
      SortedTimely(trace, min, max);
    }
  }

  // ------------------------------------------------ the assumption of the header

  /** The place of the i-th arrival in the sorted trace. */
  ghost function Rank(s: seq<Inst>, i: nat): nat
    requires i < |s|
  {
    CountUpTo(s[..i], s[i].sn) + CountUpTo(s[i + 1..], s[i].sn - 1)
  }

  /** No instruction arrives more than `min` places behind its place in the sorted trace. */
  ghost predicate LateByAtMost(trace: seq<Inst>, min: nat) {
    forall i: nat :: i < |trace| ==> i - Rank(trace, i) <= min
  }

  lemma ShiftSplit(s: seq<Inst>, x: Inst, c: nat)
    requires 0 < c <= |s|
    ensures [s[0]] + (s[1..][..c - 1] + [x] + s[1..][c - 1..]) == s[..c] + [x] + s[c..]
  {
    assert s[..c] == [s[0]] + s[1..][..c - 1];
    assert s[c..] == s[1..][c - 1..];
  }

  lemma {:induction false} CountCons(h: Inst, t: seq<Inst>, y: int)
    ensures CountUpTo([h] + t, y) == CountUpTo(t, y) + if h.sn <= y then 1 else 0
  {
    CountAppend([h], t, y);
    assert [h][..0] == [];
  }

  lemma {:induction false} InsertAt(x: Inst, s: seq<Inst>)
    requires Sorted(s, BySn)
    ensures CountUpTo(s, x.sn) <= |s|
    ensures Insert(x, s, BySn) == s[..CountUpTo(s, x.sn)] + [x] + s[CountUpTo(s, x.sn)..]
  {
    if s == [] {
    } else if !BySn(s[0], x) {
      CountNone(s, x.sn);
      assert s[..0] + [x] + s[0..] == [x] + s;
    } else {
      var t := s[1..];
      InsertAt(x, t);
      CountCons(s[0], t, x.sn);
      assert s == [s[0]] + t;
      ShiftSplit(s, x, CountUpTo(s, x.sn));
    }
  }

  lemma PlaceAfterInsert(u: seq<Inst>, c: nat, y: Inst, r: nat)
    requires c <= |u| && r < |u|
    ensures (u[..c] + [y] + u[c..])[if c <= r then r + 1 else r] == u[r]
  {
  }

  lemma RankStep(t: seq<Inst>, i: nat, y: Inst)
    requires i < |t|
    ensures Rank(t + [y], i) == Rank(t, i) + if y.sn < t[i].sn then 1 else 0
  {
    var s := t + [y];
    assert t[..i] == s[..i];
    assert s[i + 1..] == t[i + 1..] + [y];
    CountAppend(t[i + 1..], [y], s[i].sn - 1);
  }

  lemma {:induction false} RankLast(t: seq<Inst>, y: Inst)
    ensures Rank(t + [y], |t|) == CountUpTo(t, y.sn)
  {
    var s := t + [y];
    assert s[..|t|] == t && s[|t| + 1..] == [];
  }

  lemma {:induction false} SortSnoc(t: seq<Inst>, y: Inst)
    ensures var u, c := Sort(t, BySn), CountUpTo(t, y.sn);
            c <= |u| && Sort(t + [y], BySn) == u[..c] + [y] + u[c..]
  {
    assert (t + [y])[..|t|] == t;
    BySnOrders();
    SortSorted(t, BySn);
    SortMultiset(t, BySn);
    CountPermuted(Sort(t, BySn), t, y.sn);
    InsertAt(y, Sort(t, BySn));
  }

  /** `Rank` is the place: the sorted trace has the i-th arrival there. */
  lemma {:induction false} RankIsPlace(s: seq<Inst>, i: nat)
    requires i < |s|
    ensures Rank(s, i) < |s| && Sort(s, BySn)[Rank(s, i)] == s[i]
  {
    var t, y := s[..|s| - 1], s[|s| - 1];
    assert s == t + [y];
    SortSnoc(t, y);
    if i < |t| {
      RankIsPlace(t, i);
      RankAfterInsert(t, i, y);
      RankStep(t, i, y);
      PlaceAfterInsert(Sort(t, BySn), CountUpTo(t, y.sn), y, Rank(t, i));
    } else {
      RankLast(t, y);
    }
  }

  lemma {:induction false} CountAfter(s: seq<Inst>, y: int, r: nat)
    requires Sorted(s, BySn) && r < |s|
    ensures CountUpTo(s, y) <= r <==> y < s[r].sn
  {
    if r < CountUpTo(s, y) {
      CountInSorted(s, y, r);
    }
    if s[r].sn <= y {
      assert s == s[..r + 1] + s[r + 1..];
      CountAppend(s[..r + 1], s[r + 1..], y);
      CountAll(s[..r + 1], y);
    }
  }

  lemma {:induction false} RankAfterInsert(t: seq<Inst>, i: nat, y: Inst)
    requires i < |t| && Rank(t, i) < |t| && Sort(t, BySn)[Rank(t, i)] == t[i]
    ensures CountUpTo(t, y.sn) <= Rank(t, i) <==> y.sn < t[i].sn
  {
    BySnOrders();
    SortSorted(t, BySn);
    SortMultiset(t, BySn);
    CountPermuted(Sort(t, BySn), t, y.sn);
    CountAfter(Sort(t, BySn), y.sn, Rank(t, i));
  }

  /** The index at or after `k` with the least sequence number, the first of several. */
  lemma {:induction false} FirstLeast(s: seq<Inst>, k: nat) returns (m: nat)
    requires k < |s|
    ensures k <= m < |s|
    ensures forall j :: k <= j < |s| ==> s[m].sn <= s[j].sn
    ensures forall j :: k <= j < m ==> s[m].sn < s[j].sn
    decreases |s| - k
  {
    if k + 1 == |s| {
      m := k;
    } else {
      m := FirstLeast(s, k + 1);
      if s[k].sn <= s[m].sn {
        m := k;
      }
    }
  }

  lemma LateTimely(trace: seq<Inst>, min: nat, max: nat)
    requires min <= max && LateByAtMost(trace, min)
    ensures Timely(trace, min, max)
  {
    forall k: nat, j: nat | FlushAt(k, min, max) && k <= j < |trace|
      ensures CountUpTo(trace[..k], trace[j].sn) >= k - min
    {
      var m := FirstLeast(trace, k);
      var y := trace[m].sn;
      assert trace[..m] == trace[..k] + trace[k..m];
      CountAppend(trace[..k], trace[k..m], y);
      CountNone(trace[k..m], y);
      CountNone(trace[m + 1..], y - 1);
      assert m - Rank(trace, m) <= min;
      CountMonotone(trace[..k], y, trace[j].sn);
    }
  }

  /** What the header comment promises, for all traces, thresholds and windows. */
  lemma {:induction false} HeaderAssumptionSuffices(trace: seq<Inst>, min: nat, max: nat, w: Window)
    requires min <= max && LateByAtMost(trace, min)
    ensures Shown(w, Handled(trace, min, max)) == Shown(w, Sort(trace, BySn))
  {
    LateTimely(trace, min, max);
    SortedIffTimely(trace, min, max);
  }
}
