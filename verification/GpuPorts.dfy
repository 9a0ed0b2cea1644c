/**
 The sequencers that `create_system` of `GPU_VIPER.py` lists, and the walk of
 `apu_se.py` along that list that hands them out to the cpus, the compute units
 and the command processors.
 */
module GpuPorts {
  import opened Arith

  datatype Sequencer =
    | Core(pair: int, second: bool)   // a cpu of a core pair
    | TcpCoalescer(cu: int)           // the data cache of a compute unit
    | Sqc(id: int)                    // an instruction cache shared by compute units
    | Scalar(id: int)                 // a scalar cache shared by compute units
    | CpTcp(cp: int)                  // data of a command processor
    | CpSqc(cp: int)                  // instructions of a command processor

  /** The options; sharing factors are at least one. */
  datatype Options = Options(numCpus: nat, numCu: nat, cuPerSqc: nat, cuPerScalar: nat, numCp: nat) {
    ghost predicate Valid() { numCu >= 1 && cuPerSqc >= 1 && cuPerScalar >= 1 }
    function Pairs(): nat { (numCpus + 1) / 2 }
    function NumSqc(): nat requires cuPerSqc >= 1 { CeilDiv(numCu, cuPerSqc) }
    function NumScalar(): nat requires cuPerScalar >= 1 { CeilDiv(numCu, cuPerScalar) }
  }

  /** `int(math.ceil(float(a) / b))` */
  function CeilDiv(a: nat, b: nat): nat
    requires b >= 1
  {
    (a + b - 1) / b
  }

  /** The last unit shares the last cache. */
  lemma CeilDivLast(a: nat, b: nat)
    requires a >= 1 && b >= 1
    ensures CeilDiv(a, b) == (a - 1) / b + 1
  {
    var q, r := (a - 1) / b, (a - 1) % b;
    assert a - 1 == b * q + r;
    assert a + b - 1 == b * (q + 1) + r;
    DivModUnique(a + b - 1, b, q + 1, r);
  }

  // ------------------------------------------------------------------ create_system

  function Cores(n: nat): seq<Sequencer> {
    seq(2 * n, i => Core(i / 2, i % 2 == 1))
  }

  function CommandProcessors(n: nat): seq<Sequencer> {
    seq(2 * n, i => if i % 2 == 0 then CpTcp(i / 2) else CpSqc(i / 2))
  }

  /** The list that `create_system` returns. */
  function Sequencers(o: Options): seq<Sequencer>
    requires o.Valid()
  {
    Cores(o.Pairs()) + seq(o.numCu, i => TcpCoalescer(i)) + seq(o.NumSqc(), i => Sqc(i)) +
    seq(o.NumScalar(), i => Scalar(i)) + CommandProcessors(o.numCp)
  }

  method CreateSystem(o: Options) returns (cpuSequencers: seq<Sequencer>)
    requires o.Valid()
    ensures cpuSequencers == Sequencers(o)
  {
    cpuSequencers := [];
    for i := 0 to (o.numCpus + 1) / 2
      invariant cpuSequencers == Cores(i)
    {
      assert Cores(i + 1) == Cores(i) + [Core(i, false), Core(i, true)];
      cpuSequencers := cpuSequencers + [Core(i, false), Core(i, true)];
    }
    for i := 0 to o.numCu
      invariant cpuSequencers == Cores(o.Pairs()) + seq(i, k => TcpCoalescer(k))
    {
      cpuSequencers := cpuSequencers + [TcpCoalescer(i)];
    }
    ghost var front := cpuSequencers;
    for i := 0 to o.NumSqc()
      invariant cpuSequencers == front + seq(i, k => Sqc(k))
    {
      cpuSequencers := cpuSequencers + [Sqc(i)];
    }
    front := cpuSequencers;
    for i := 0 to o.NumScalar()
      invariant cpuSequencers == front + seq(i, k => Scalar(k))
    {
      cpuSequencers := cpuSequencers + [Scalar(i)];
    }
    front := cpuSequencers;
    for i := 0 to o.numCp
      invariant cpuSequencers == front + CommandProcessors(i)
    {
      assert CommandProcessors(i + 1) == CommandProcessors(i) + [CpTcp(i), CpSqc(i)];
      cpuSequencers := cpuSequencers + [CpTcp(i)];
      cpuSequencers := cpuSequencers + [CpSqc(i)];
    }
  }

  // ------------------------------------------------------------------------ apu_se

  /** What is attached to what. */
  datatype Wiring = Wiring(
    cpus: seq<Sequencer>, memory: seq<Sequencer>, sqc: seq<Sequencer>, scalar: seq<Sequencer>,
    cpData: seq<Sequencer>, cpInst: seq<Sequencer>)

  /** Who is to be served by what, whatever the order of the list. */
  function Intended(o: Options): Wiring
    requires o.Valid()
  {
    Wiring(
      seq(o.numCpus, i => Core(i / 2, i % 2 == 1)),
      seq(o.numCu, i => TcpCoalescer(i)),
      seq(o.numCu, i => Sqc(i / o.cuPerSqc)),
      seq(o.numCu, i => Scalar(i / o.cuPerScalar)),
      seq(o.numCp, i => CpTcp(i)),
      seq(o.numCp, i => CpSqc(i)))
  }

  /** One loop over the compute units that moves on to the next cache every `per` units. */
  method WalkShared(ports: seq<Sequencer>, start: nat, units: nat, per: nat)
    returns (attached: seq<Sequencer>, idx: nat)
    requires units >= 1 && per >= 1 && start + CeilDiv(units, per) <= |ports|
    ensures |attached| == units
    ensures forall i :: 0 <= i < units ==> 0 <= i / per < CeilDiv(units, per) && attached[i] == ports[start + i / per]
    ensures idx == start + CeilDiv(units, per)
  {
    CeilDivLast(units, per);
    attached, idx := [], start;
    for i := 0 to units
      invariant idx == start + if i == 0 then 0 else (i - 1) / per
      invariant |attached| == i
      invariant forall k :: 0 <= k < i ==> 0 <= k / per < CeilDiv(units, per) && attached[k] == ports[start + k / per]
    {
      if i > 0 {
        ModStep(i - 1, per);
        if i % per == 0 {
          idx := idx + 1;
        }
      } else {
        DivModUnique(0, per, 0, 0);
      }
      assert idx == start + i / per;
      SharedInRange(i, per, units);
      attached := attached + [ports[idx]];
    }
    idx := idx + 1;
  }

  lemma SharedInRange(i: nat, per: nat, units: nat)
    requires i < units && per >= 1
    ensures 0 <= i / per < CeilDiv(units, per)
  {
    CeilDivLast(units, per);
    if i / per > (units - 1) / per {
      MulStep(per, (units - 1) / per, i / per);
    }
  }

  /** Where each group of sequencers starts. */
  lemma Layout(o: Options)
    requires o.Valid()
    ensures var s, a := Sequencers(o), 2 * o.Pairs();
            var b := a + o.numCu; var c := b + o.NumSqc(); var d := c + o.NumScalar();
            && |s| == d + 2 * o.numCp && o.numCpus <= a
            && (forall i :: 0 <= i < a ==> s[i] == Core(i / 2, i % 2 == 1))
            && (forall i :: 0 <= i < o.numCu ==> s[a + i] == TcpCoalescer(i))
            && (forall i :: 0 <= i < o.NumSqc() ==> s[b + i] == Sqc(i))
            && (forall i :: 0 <= i < o.NumScalar() ==> s[c + i] == Scalar(i))
            && (forall i :: 0 <= i < o.numCp ==> s[d + 2 * i] == CpTcp(i) && s[d + 2 * i + 1] == CpSqc(i))
  {
    var cores, tcps, sqcs := Cores(o.Pairs()), seq(o.numCu, i => TcpCoalescer(i)), seq(o.NumSqc(), i => Sqc(i));
    var scalars, cps := seq(o.NumScalar(), i => Scalar(i)), CommandProcessors(o.numCp);
    FiveParts(cores, tcps, sqcs, scalars, cps);
    forall i | 0 <= i < o.numCp ensures cps[2 * i] == CpTcp(i) && cps[2 * i + 1] == CpSqc(i) {
    }
  }

  lemma FiveParts<T>(a: seq<T>, b: seq<T>, c: seq<T>, d: seq<T>, e: seq<T>)
    ensures var s := a + b + c + d + e; var ab := |a| + |b|; var abc := ab + |c|; var abcd := abc + |d|;
            && |s| == abcd + |e|
            && (forall i :: 0 <= i < |a| ==> s[i] == a[i])
            && (forall i :: 0 <= i < |b| ==> s[|a| + i] == b[i])
            && (forall i :: 0 <= i < |c| ==> s[ab + i] == c[i])
            && (forall i :: 0 <= i < |d| ==> s[abc + i] == d[i])
            && (forall i :: 0 <= i < |e| ==> s[abcd + i] == e[i])
  {
  }

  /** Lines 537-545: cpu i takes port i. */
  method AttachCpus(ports: seq<Sequencer>, n: nat) returns (cpus: seq<Sequencer>)
    requires n <= |ports|
    ensures cpus == ports[..n]
  {
    cpus := [];
    for i := 0 to n
      invariant cpus == ports[..i]
    {
      cpus := cpus + [ports[i]];
    }
  }

  /** Lines 569-577. */
  method AttachMemory(ports: seq<Sequencer>, start: nat, units: nat) returns (memory: seq<Sequencer>, idx: nat)
    requires start + units <= |ports|
    ensures memory == ports[start..start + units] && idx == start + units
  {
    memory, idx := [], start;
    for i := 0 to units
      invariant idx == start + i && memory == ports[start..start + i]
    {
      memory := memory + [ports[idx]];
      idx := idx + 1;
    }
  }

  /** Lines 596-605. */
  method AttachCps(ports: seq<Sequencer>, start: nat, n: nat) returns (data: seq<Sequencer>, inst: seq<Sequencer>)
    requires start + 2 * n <= |ports|
    ensures |data| == |inst| == n
    ensures forall i :: 0 <= i < n ==> data[i] == ports[start + 2 * i] && inst[i] == ports[start + 2 * i + 1]
  {
    data, inst := [], [];
    for i := 0 to n
      invariant |data| == |inst| == i
      invariant forall k :: 0 <= k < i ==> data[k] == ports[start + 2 * k] && inst[k] == ports[start + 2 * k + 1]
    {
      data := data + [ports[start + i * 2]];
      inst := inst + [ports[start + i * 2 + 1]];
    }
  }

  /** Along the list that `create_system` made, everything is attached where it is meant to be. */
  method ConnectPorts(o: Options, ports: seq<Sequencer>) returns (w: Wiring)
    requires o.Valid() && ports == Sequencers(o)
    ensures w == Intended(o)
  {
    Layout(o);
    var cpus := AttachCpus(ports, o.numCpus);
    var start := |ports| - o.numCu - o.NumSqc() - o.NumScalar() - o.numCp * 2;
    var memory, idx := AttachMemory(ports, start, o.numCu);
    var sqc, scalar, data, inst;
    sqc, idx := WalkShared(ports, idx, o.numCu, o.cuPerSqc);
    scalar, idx := WalkShared(ports, idx, o.numCu, o.cuPerScalar);
    data, inst := AttachCps(ports, idx, o.numCp);
    var want := Intended(o);
    assert cpus == want.cpus && memory == want.memory && sqc == want.sqc;
    assert scalar == want.scalar && data == want.cpData && inst == want.cpInst;
    w := Wiring(cpus, memory, sqc, scalar, data, inst);
  }
}
