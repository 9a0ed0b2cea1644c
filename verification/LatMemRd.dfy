/**
 `lat_mem_rd.py`: the ranges to measure, four to each doubling from 4 kByte up,
 and the ticks of the trace made for each of them.
 */
module LatMemRd {
  import opened Arith
  import opened Sets
  import opened Sorting

  const MIN_RANGE := 4096
  const BURST_SIZE := 64

  // ------------------------------------------------------------------ powers of two

  function Pow2(k: nat): (p: nat)
    ensures p >= 1
  {
    if k == 0 then 1 else 2 * Pow2(k - 1)
  }

  /** `a & b` */
  function And(a: nat, b: nat): nat {
    if a == 0 || b == 0 then 0 else (if a % 2 == 1 && b % 2 == 1 then 1 else 0) + 2 * And(a / 2, b / 2)
  }

  predicate IsPow2(num: nat) {
    num != 0 && And(num, num - 1) == 0
  }

  lemma {:induction false} AndSelf(a: nat)
    ensures And(a, a) == a
  {
    if a > 0 {
      AndSelf(a / 2);
    }
  }

  lemma HalfIsPow2(n: nat)
    requires n > 0
    ensures IsPow2(2 * n) <==> IsPow2(n)
  {
    assert (2 * n - 1) % 2 == 1 && (2 * n - 1) / 2 == n - 1;
    assert (2 * n) % 2 == 0 && (2 * n) / 2 == n;
  }

  lemma OddIsPow2(n: nat)
    requires n % 2 == 1
    ensures IsPow2(n) <==> n == 1
  {
    if n > 1 {
      assert (n - 1) % 2 == 0 && (n - 1) / 2 == n / 2;
      AndSelf(n / 2);
      assert And(n, n - 1) == 2 * And(n / 2, n / 2);
    }
  }

  ghost predicate IsPower(n: nat) {
    exists k: nat :: n == Pow2(k)
  }

  lemma HalfIsPower(n: nat)
    requires n > 0
    ensures IsPower(2 * n) <==> IsPower(n)
  {
    if IsPower(n) {
      var k: nat :| n == Pow2(k);
      assert 2 * n == Pow2(k + 1);
    }
    if IsPower(2 * n) {
      var k: nat :| 2 * n == Pow2(k);
      assert n == Pow2(k - 1);
    }
  }

  lemma OddIsPower(n: nat)
    requires n % 2 == 1
    ensures IsPower(n) <==> n == 1
  {
    assert Pow2(0) == 1;
    if IsPower(n) {
      var k: nat :| n == Pow2(k);
      assert k > 0 ==> Pow2(k) == 2 * Pow2(k - 1);
    }
  }

  /** The bit trick finds exactly the powers of two. */
  lemma {:induction false} IsPow2Iff(n: nat)
    ensures IsPow2(n) <==> IsPower(n)
  {
    if n % 2 == 1 {
      OddIsPow2(n);
      OddIsPower(n);
    } else if n > 0 {
      IsPow2Iff(n / 2);
      HalfIsPow2(n / 2);
      HalfIsPower(n / 2);
    }
  }

  /** `n << k` */
  function Shift(n: nat, k: nat): nat {
    if k == 0 then n else 2 * Shift(n, k - 1)
  }

  lemma {:induction false} ShiftIsPow2(n: nat, k: nat)
    requires n > 0
    ensures Shift(n, k) > 0 && (IsPow2(Shift(n, k)) <==> IsPow2(n))
  {
    if k > 0 {
      ShiftIsPow2(n, k - 1);
      HalfIsPow2(Shift(n, k - 1));
    }
  }

  lemma {:induction false} ShiftIsProduct(n: nat, k: nat)
    ensures Shift(n, k) == n * Pow2(k)
  {
    if k > 0 {
      ShiftIsProduct(n, k - 1);
    }
  }

  // --------------------------------------------------------------------- the ranges

  /** The distance from the n-th point to the next; it doubles with every fourth point. */
  function Step(n: nat): (d: nat)
    ensures d > 0
  {
    if n == 0 then 1024 else if n % 4 == 0 then 2 * Step(n - 1) else Step(n - 1)
  }

  function Point(n: nat): nat {
    if n == 0 then MIN_RANGE else Point(n - 1) + Step(n - 1)
  }

  lemma PowTen()
    ensures Pow2(10) == 1024
  {
    assert Pow2(5) == 32;
    assert Pow2(8) == 8 * Pow2(5);
  }

  lemma {:induction false} StepClosed(n: nat)
    ensures Step(n) == Pow2(10 + n / 4)
  {
    if n == 0 {
      PowTen();
    } else {
      StepClosed(n - 1);
      ModStep(n - 1, 4);
    }
  }

  /** The points are 4, 5, 6 and 7 quarters of a power of two, then on to the next power. */
  lemma {:induction false} PointClosed(n: nat)
    ensures Point(n) == (4 + n % 4) * Step(n)
  {
    if n > 0 {
      PointClosed(n - 1);
      ModStep(n - 1, 4);
      var d, r := Step(n - 1), (n - 1) % 4;
      assert Point(n) == (4 + r) * d + d == (5 + r) * d;
    }
  }

  /** The step doubles exactly when a power of two is reached. */
  lemma {:induction false} PointIsPow2(n: nat)
    ensures IsPow2(Point(n)) <==> n % 4 == 0
  {
    PointClosed(n);
    StepClosed(n);
    ShiftIsProduct(4 + n % 4, 10 + n / 4);
    ShiftIsPow2(4 + n % 4, 10 + n / 4);
    SmallPow2(4 + n % 4);
  }

  lemma SmallPow2(n: nat)
    requires 4 <= n < 8
    ensures IsPow2(n) <==> n == 4
  {
    OddIsPow2(5);
    OddIsPow2(7);
    OddIsPow2(3);
    OddIsPow2(1);
    HalfIsPow2(3);
    HalfIsPow2(1);
    HalfIsPow2(2);
  }

  ghost predicate ArePoints(s: seq<nat>) {
    forall i {:trigger s[i]} :: 0 <= i < |s| ==> s[i] == Point(i)
  }

  /** The points up to the first that is not below the end of the memory. */
  ghost predicate IsRanges(ranges: seq<nat>, maxRange: nat) {
    && ranges != [] && ArePoints(ranges)
    && ranges[|ranges| - 1] >= maxRange
    && (forall i :: 0 <= i < |ranges| - 1 ==> ranges[i] < maxRange)
  }

  method Ranges(maxRange: nat) returns (ranges: seq<nat>)
    ensures IsRanges(ranges, maxRange)
  {
    ranges := [MIN_RANGE];
    var step := 1024;
    while ranges[|ranges| - 1] < maxRange
      invariant ranges != [] && ArePoints(ranges) && step == Step(|ranges| - 1)
      invariant forall i :: 0 <= i < |ranges| - 1 ==> ranges[i] < maxRange
      decreases maxRange - ranges[|ranges| - 1]
    {
      PointIsPow2(|ranges|);
      var newRange := ranges[|ranges| - 1] + step;
      if IsPow2(newRange) {
        step := step * 2;
      }
      ranges := ranges + [newRange];
    }
  }

  lemma {:induction false} PointsIncrease(i: nat, j: nat)
    requires i < j
    ensures Point(i) < Point(j)
  {
    if i < j - 1 {
      PointsIncrease(i, j - 1);
    }
  }

  /** Every power of two is a point, every fourth one. */
  lemma {:induction false} PowersArePoints(m: nat)
    ensures Point(4 * m) == Pow2(12 + m)
  {
    PointClosed(4 * m);
    StepClosed(4 * m);
    DivModUnique(4 * m, 4, m, 0);
    assert Pow2(12 + m) == 2 * Pow2(11 + m) == 4 * Pow2(10 + m);
  }

  /** The list ends at the end of the memory exactly when that is one of the points. */
  lemma EndsAtMaxIff(ranges: seq<nat>, maxRange: nat)
    requires IsRanges(ranges, maxRange)
    ensures ranges[|ranges| - 1] == maxRange <==> exists n: nat :: maxRange == Point(n)
  {
    assert ranges[|ranges| - 1] == Point(|ranges| - 1);
    if n: nat :| maxRange == Point(n) {
      LastIs(ranges, n);
    }
  }

  lemma {:induction false} LastIs(ranges: seq<nat>, n: nat)
    requires IsRanges(ranges, Point(n))
    ensures |ranges| == n + 1
  {
    assert n < |ranges| ==> !(ranges[n] < Point(n));
    if n > |ranges| - 1 {
      PointsIncrease(|ranges| - 1, n);
    }
  }

  /** With a power of two the list ends there, with four points to each doubling. */
  lemma {:induction false} PowerOfTwoRanges(ranges: seq<nat>, m: nat)
    requires IsRanges(ranges, Pow2(12 + m))
    ensures |ranges| == 4 * m + 1 && ranges[|ranges| - 1] == Pow2(12 + m)
    ensures forall j: nat :: j <= m ==> ranges[4 * j] == Pow2(12 + j)
  {
    PowersArePoints(m);
    LastIs(ranges, 4 * m);
    forall j: nat | j <= m ensures ranges[4 * j] == Pow2(12 + j) {
      PowersArePoints(j);
    }
  }

  // ---------------------------------------------------------------------- the traces

  datatype Packet = Packet(tick: nat, addr: nat)

  /** How many addresses a step of `burst` reaches below `maxAddr`. */
  function Bursts(maxAddr: nat): nat {
    (maxAddr + BURST_SIZE - 1) / BURST_SIZE
  }

  ghost predicate Permutation(shuffle: seq<nat>, n: nat) {
    |shuffle| == n && NoDuplicates(shuffle) && forall i :: 0 <= i < n ==> shuffle[i] < n
  }

  ghost function Below(n: nat): (s: set<nat>)
    ensures |s| == n && forall i: nat :: i in s <==> i < n
  {
    if n == 0 then {} else Below(n - 1) + {n - 1}
  }

  lemma PermutationHits(shuffle: seq<nat>, n: nat, j: nat)
    requires Permutation(shuffle, n) && j < n
    ensures j in shuffle
  {
    var hit := set x | x in shuffle;
    NoDuplicatesCard(shuffle);
    SubsetOfSameSize(hit, Below(n));
    assert j in Below(n);
  }

  /** The address is read by exactly one packet. */
  ghost predicate ReadOnce(packets: seq<Packet>, addr: nat) {
    exists i :: 0 <= i < |packets| && packets[i].addr == addr &&
      forall k :: 0 <= k < |packets| && packets[k].addr == addr ==> k == i
  }

  /** A packet every `itt` ticks, for the addresses in their shuffled order. */
  ghost predicate Plays(packets: seq<Packet>, itt: nat, shuffle: seq<nat>) {
    |packets| == |shuffle| &&
    forall i :: 0 <= i < |packets| ==> packets[i] == Packet(i * itt, shuffle[i] * BURST_SIZE)
  }

  /** Every burst below the end of the range is read exactly once, and nothing else is. */
  lemma EachBurstOnce(maxAddr: nat, itt: nat, shuffle: seq<nat>, packets: seq<Packet>, addr: nat)
    requires Permutation(shuffle, Bursts(maxAddr)) && Plays(packets, itt, shuffle)
    ensures (addr < maxAddr && addr % BURST_SIZE == 0) <==> ReadOnce(packets, addr)
    ensures (exists i :: 0 <= i < |packets| && packets[i].addr == addr) <==> ReadOnce(packets, addr)
  {
    if addr < maxAddr && addr % BURST_SIZE == 0 {
      var j := addr / BURST_SIZE;
      PermutationHits(shuffle, Bursts(maxAddr), j);
      var i :| 0 <= i < |shuffle| && shuffle[i] == j;
      assert packets[i].addr == addr;
    }
    if i :| 0 <= i < |packets| && packets[i].addr == addr {
      assert packets[i].addr == shuffle[i] * BURST_SIZE;
      forall k | 0 <= k < |packets| && packets[k].addr == addr ensures k == i {
        assert shuffle[k] == shuffle[i];
      }
    }
  }

  /** Lines 194-212; `shuffle` says where the shuffling puts each address. */
  method CreateTrace(maxAddr: nat, itt: nat, shuffle: seq<nat>) returns (packets: seq<Packet>)
    requires Permutation(shuffle, Bursts(maxAddr))
    ensures Plays(packets, itt, shuffle)
    ensures forall addr: nat :: (addr < maxAddr && addr % BURST_SIZE == 0) <==> ReadOnce(packets, addr)
  {
    var tick := 0;
    packets := [];
    for i := 0 to |shuffle|
      invariant tick == i * itt && Plays(packets, itt, shuffle[..i])
    {
      var addr := shuffle[i] * BURST_SIZE;
      packets := packets + [Packet(tick, addr)];
      assert (i + 1) * itt == i * itt + itt;
      tick := tick + itt;
    }
    assert shuffle[..|shuffle|] == shuffle;
    forall addr: nat ensures (addr < maxAddr && addr % BURST_SIZE == 0) <==> ReadOnce(packets, addr) {
      EachBurstOnce(maxAddr, itt, shuffle, packets, addr);
    }
  }

  function Period(maxRange: nat, itt: nat): nat {
    itt * (maxRange / BURST_SIZE)
  }

  function LastTick(maxAddr: nat, itt: nat): int {
    (Bursts(maxAddr) - 1) * itt
  }

  lemma {:induction false} PowMultiple(k: nat)
    requires k >= 6
    ensures Pow2(k) % BURST_SIZE == 0
  {
    if k == 6 {
      assert Pow2(6) == 64;
    } else {
      PowMultiple(k - 1);
    }
  }

  lemma MultipleScaled(c: nat, p: nat)
    requires p % BURST_SIZE == 0
    ensures c * p % BURST_SIZE == 0
  {
    var q := p / BURST_SIZE;
    assert p == BURST_SIZE * q;
    assert c * p == BURST_SIZE * (c * q);
    DivModUnique(c * p, BURST_SIZE, c * q, 0);
  }

  lemma {:induction false} PointMultiple(n: nat)
    ensures Point(n) % BURST_SIZE == 0 && Point(n) >= MIN_RANGE
  {
    PointClosed(n);
    StepClosed(n);
    PowMultiple(10 + n / 4);
    MultipleScaled(4 + n % 4, Step(n));
    if n > 0 {
      PointsIncrease(0, n);
    }
  }

  lemma TraceFits(r: nat, maxRange: nat, itt: nat)
    requires r % BURST_SIZE == 0 && r > 0 && itt > 0
    ensures LastTick(r, itt) < Period(maxRange, itt) <==> r <= maxRange
  {
    var a, b := r / BURST_SIZE, maxRange / BURST_SIZE;
    assert Bursts(r) == a;
    assert r <= maxRange <==> a <= b;
    if a <= b {
      MulStep(itt, a - 1, b);
    } else if b < a - 1 {
      MulStep(itt, b, a - 1);
    }
  }

  /** Every trace is over within a period exactly when the list ends at the end of the memory. */
  lemma AllTracesFitIff(ranges: seq<nat>, maxRange: nat, itt: nat)
    requires IsRanges(ranges, maxRange) && itt > 0
    ensures (forall i :: 0 <= i < |ranges| ==> LastTick(ranges[i], itt) < Period(maxRange, itt)) <==>
            ranges[|ranges| - 1] == maxRange
  {
    forall i | 0 <= i < |ranges| ensures LastTick(ranges[i], itt) < Period(maxRange, itt) <==> ranges[i] <= maxRange {
      PointMultiple(i);
      TraceFits(ranges[i], maxRange, itt);
    }
  }
}
