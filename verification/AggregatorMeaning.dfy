/**
 What merging checkpoints preserves: no two sections of the merged file have the
 same name, every byte is found again at its moved address, and the recorded
 size of the memory is the size written exactly when no image file is short.
 */
module AggregatorMeaning {
  import opened Arith
  import opened Bytes
  import opened Text
  import opened Aggregator

  // -------------------------------------------------------------------- names

  lemma {:induction false} RenameHead(s: string, tag: string, c: char)
    requires c != 'c' && Rename(s, tag) != [] && Rename(s, tag)[0] == c
    ensures s != [] && s[0] == c && !StartsWithCpu(s) && Rename(s, tag) == [c] + Rename(s[1..], tag)
  {
  }

  /** A name that does not begin with "cpu" is not renamed to one that does. */
  lemma {:induction false} RenameNotCpu(s: string, tag: string)
    requires s != [] && !StartsWithCpu(s)
    ensures !StartsWithCpu(Rename(s, tag))
  {
    var r := Rename(s, tag);
    if StartsWithCpu(r) {
      assert r[0] == r[..3][0] == 'c' && r[1] == r[..3][1] == 'p' && r[2] == r[..3][2] == 'u';
      var r1 := Rename(s[1..], tag);
      assert r == [s[0]] + r1;
      RenameHead(s[1..], tag, 'p');
      var r2 := Rename(s[2..], tag);
      assert s[1..][1..] == s[2..];
      RenameHead(s[2..], tag, 'u');
    }
  }

  lemma {:induction false} RenameCpu(s: string, tag: string)
    requires StartsWithCpu(s)
    ensures var r := Rename(s, tag);
            StartsWithCpu(r) && |r| >= 3 + |tag| && r[3..3 + |tag|] == tag && r[3 + |tag|..] == Rename(s[3..], tag)
  {
    var r := Rename(s, tag);
    assert r == "cpu" + tag + Rename(s[3..], tag);
    assert r[..3] == "cpu";
  }

  /** Renaming forgets neither the name nor, if the name mentions a cpu, the tag. */
  lemma {:induction false} RenameInjective(s: string, t: string, d: string, e: string)
    requires |d| == |e| && Rename(s, d) == Rename(t, e)
    ensures s == t
    ensures Mentions(s) ==> d == e
  {
    if s == [] || t == [] {
    } else if StartsWithCpu(s) {
      RenameCpu(s, d);
      if !StartsWithCpu(t) {
        RenameNotCpu(t, e);
        assert false;
      }
      RenameCpu(t, e);
      RenameInjective(s[3..], t[3..], d, e);
      assert s == "cpu" + s[3..] && t == "cpu" + t[3..];
    } else {
      RenameNotCpu(s, d);
      if StartsWithCpu(t) {
        RenameCpu(t, e);
        assert false;
      }
      assert Rename(s, d)[1..] == Rename(s[1..], d) && Rename(t, e)[1..] == Rename(t[1..], e);
      RenameInjective(s[1..], t[1..], d, e);
      assert s == [s[0]] + s[1..] && t == [t[0]] + t[1..];
    }
  }

  lemma {:induction false} RenameKeepsMention(s: string, tag: string)
    ensures Mentions(s) ==> Mentions(Rename(s, tag))
  {
    if Mentions(s) {
      if StartsWithCpu(s) {
        RenameCpu(s, tag);
      } else {
        RenameKeepsMention(s[1..], tag);
        assert Rename(s, tag)[1..] == Rename(s[1..], tag);
      }
    }
  }

  lemma TagFacts(i: nat, j: nat, count: nat)
    requires i < count && j < count
    ensures |TagOf(i, count)| == |TagOf(j, count)| == Width(count)
    ensures TagOf(i, count) == TagOf(j, count) ==> i == j
  {
    StrLengthMonotone(i, count - 1);
    StrLengthMonotone(j, count - 1);
    ZfillInjective(i, j, Width(count));
  }

  /** Sections about cpus of different checkpoints, or of different names, never collide. */
  lemma {:induction false} CpuNamesDistinct(s: string, i: nat, t: string, j: nat, count: nat)
    requires i < count && j < count && Mentions(s)
    requires Rename(s, TagOf(i, count)) == Rename(t, TagOf(j, count))
    ensures i == j && s == t
  {
    TagFacts(i, j, count);
    RenameInjective(s, t, TagOf(i, count), TagOf(j, count));
  }

  // ------------------------------------------------------------ the merged file

  /** `m` is what checkpoint i makes of its section `sec`. */
  ghost predicate ComesFrom(cpts: seq<Checkpoint>, m: Section, i: nat, sec: Section)
    requires i < |cpts|
  {
    sec in cpts[i].sections && [m] == Contribution(sec, i, TagOf(i, |cpts|), Base(cpts, i), i == |cpts| - 1)
  }

  lemma {:induction false} MergedFrom(secs: seq<Section>, i: nat, tag: string, base: nat, last: bool, m: Section)
    ensures m in MergeSections(secs, i, tag, base, last) <==>
            exists sec :: sec in secs && Contribution(sec, i, tag, base, last) == [m]
  {
    if secs != [] {
      var n := |secs| - 1;
      MergedFrom(secs[..n], i, tag, base, last, m);
      assert secs == secs[..n] + [secs[n]];
      if m in MergeSections(secs, i, tag, base, last) && m !in MergeSections(secs[..n], i, tag, base, last) {
        assert secs[n] in secs && Contribution(secs[n], i, tag, base, last) == [m];
      }
    }
  }

  /** Exactly what the merged file holds in front of its last two sections. */
  lemma {:induction false} AllFrom(cpts: seq<Checkpoint>, n: nat, m: Section)
    requires n <= |cpts|
    ensures m in AllSections(cpts, n) <==> exists i, sec :: 0 <= i < n && ComesFrom(cpts, m, i, sec)
  {
    if n > 0 {
      AllFrom(cpts, n - 1, m);
      var i := n - 1;
      var tag, base, last := TagOf(i, |cpts|), Base(cpts, i), n == |cpts|;
      MergedFrom(cpts[i].sections, i, tag, base, last, m);
      if m in MergeSections(cpts[i].sections, i, tag, base, last) {
        var sec :| sec in cpts[i].sections && Contribution(sec, i, tag, base, last) == [m];
        assert ComesFrom(cpts, m, i, sec);
      }
    }
  }

  /** Two merged sections with one name come from one place. */
  lemma SameNameSameOrigin(cpts: seq<Checkpoint>, a: Section, i: nat, s: Section, b: Section, j: nat, t: Section)
    requires i < |cpts| && ComesFrom(cpts, a, i, s)
    requires j < |cpts| && ComesFrom(cpts, b, j, t)
    requires a.name == b.name
    ensures i == j && s.name == t.name
  {
    RenameKeepsMention(s.name, TagOf(i, |cpts|));
    RenameKeepsMention(t.name, TagOf(j, |cpts|));
    if Mentions(s.name) && Mentions(t.name) {
      CpuNamesDistinct(s.name, i, t.name, j, |cpts|);
    }
  }

  lemma ContributionName(s: Section, t: Section, i: nat, tag: string, base: nat, last: bool)
    requires s.name != t.name
    requires Contribution(s, i, tag, base, last) != [] && Contribution(t, i, tag, base, last) != []
    ensures Contribution(s, i, tag, base, last)[0].name != Contribution(t, i, tag, base, last)[0].name
  {
    RenameKeepsMention(s.name, tag);
    RenameKeepsMention(t.name, tag);
    if Mentions(s.name) && Mentions(t.name) && Rename(s.name, tag) == Rename(t.name, tag) {
      RenameInjective(s.name, t.name, tag, tag);
    }
  }

  lemma {:induction false} MergeDistinct(secs: seq<Section>, i: nat, tag: string, base: nat, last: bool)
    requires DistinctNames(secs)
    ensures DistinctNames(MergeSections(secs, i, tag, base, last))
  {
    if secs != [] {
      var n := |secs| - 1;
      MergeDistinct(secs[..n], i, tag, base, last);
      var before, part := MergeSections(secs[..n], i, tag, base, last), Contribution(secs[n], i, tag, base, last);
      forall m | m in before && part != [] ensures m.name != part[0].name {
        MergedFrom(secs[..n], i, tag, base, last, m);
        var sec :| sec in secs[..n] && Contribution(sec, i, tag, base, last) == [m];
        ContributionName(sec, secs[n], i, tag, base, last);
      }
    }
  }

  lemma DistinctConcat(a: seq<Section>, b: seq<Section>)
    requires DistinctNames(a) && DistinctNames(b)
    requires forall x, y :: x in a && y in b ==> x.name != y.name
    ensures DistinctNames(a + b)
  {
  }

  lemma {:induction false} AllDistinct(cpts: seq<Checkpoint>, n: nat)
    requires n <= |cpts| && forall i :: 0 <= i < |cpts| ==> DistinctNames(cpts[i].sections)
    ensures DistinctNames(AllSections(cpts, n))
  {
    if n > 0 {
      AllDistinct(cpts, n - 1);
      var j := n - 1;
      var tag, base, last := TagOf(j, |cpts|), Base(cpts, j), n == |cpts|;
      var before, part := AllSections(cpts, j), MergeSections(cpts[j].sections, j, tag, base, last);
      MergeDistinct(cpts[j].sections, j, tag, base, last);
      forall a, b | a in before && b in part ensures a.name != b.name {
        AcrossDistinct(cpts, j, a, b);
      }
      DistinctConcat(before, part);
    }
  }

  /** A section of checkpoint j collides with none of the checkpoints before. */
  lemma {:induction false} AcrossDistinct(cpts: seq<Checkpoint>, j: nat, a: Section, b: Section)
    requires j < |cpts|
    ensures var part := MergeSections(cpts[j].sections, j, TagOf(j, |cpts|), Base(cpts, j), j == |cpts| - 1);
            a in AllSections(cpts, j) && b in part ==> a.name != b.name
  {
    var tag, base, last := TagOf(j, |cpts|), Base(cpts, j), j == |cpts| - 1;
    AllFrom(cpts, j, a);
    MergedFrom(cpts[j].sections, j, tag, base, last, b);
    if a in AllSections(cpts, j) && b in MergeSections(cpts[j].sections, j, tag, base, last) && a.name == b.name {
      var i, s :| 0 <= i < j && ComesFrom(cpts, a, i, s);
      var t :| t in cpts[j].sections && Contribution(t, j, tag, base, last) == [b];
      assert ComesFrom(cpts, b, j, t);
      SameNameSameOrigin(cpts, a, i, s, b, j, t);
      assert false;
    }
  }

  /** A section about a cpu is not renamed to one of the names the script sets itself. */
  lemma {:induction false} RenamedIsNotPlain(s: string, tag: string)
    ensures Mentions(s) ==> Rename(s, tag) != "system" && Rename(s, tag) != "Globals" && Rename(s, tag) != STORE
  {
    RenameKeepsMention(s, tag);
    PlainNames();
  }

  lemma {:induction false} NotTrailing(cpts: seq<Checkpoint>, m: Section)
    requires m in AllSections(cpts, |cpts|)
    ensures m.name != "system" && m.name != "Globals"
  {
    AllFrom(cpts, |cpts|, m);
    var i, s :| 0 <= i < |cpts| && ComesFrom(cpts, m, i, s);
    RenamedIsNotPlain(s.name, TagOf(i, |cpts|));
  }

  /** No two sections of the merged file have the same name. */
  lemma NoCollisions(cpts: seq<Checkpoint>, memorySize: int)
    requires forall i :: 0 <= i < |cpts| ==> DistinctNames(cpts[i].sections)
    ensures DistinctNames(MergedConfig(cpts, memorySize))
  {
    var all := AllSections(cpts, |cpts|);
    AllDistinct(cpts, |cpts|);
    forall m | m in all ensures m.name != "system" && m.name != "Globals" {
      NotTrailing(cpts, m);
    }
    var ranged := WithRange(all, RangeSize(cpts, memorySize));
    assert forall i :: 0 <= i < |all| ==> ranged[i].name == all[i].name && all[i] in all;
  }

  // ------------------------------------------------------------------- memory

  /** The file holds all the pages the checkpoint counts. */
  ghost predicate LongEnough(c: Checkpoint) {
    |c.memory| >= PagesOf(c) * PAGE
  }

  /** Checkpoint k starts at its page exactly when no file before it is short. */
  lemma {:induction false} ImagesLength(cpts: seq<Checkpoint>, k: nat)
    requires k <= |cpts|
    ensures |Images(cpts, k)| <= Base(cpts, k) * PAGE
    ensures |Images(cpts, k)| == Base(cpts, k) * PAGE <==> forall i :: 0 <= i < k ==> LongEnough(cpts[i])
  {
    if k > 0 {
      ImagesLength(cpts, k - 1);
    }
  }

  lemma {:induction false} ImagesPrefix(cpts: seq<Checkpoint>, k: nat, n: nat)
    requires k <= n <= |cpts|
    ensures Images(cpts, k) <= Images(cpts, n) && Base(cpts, k) <= Base(cpts, n)
    decreases n
  {
    if k < n {
      ImagesPrefix(cpts, k, n - 1);
    }
  }

  lemma {:induction false} RangeCovers(cpts: seq<Checkpoint>, k: nat, memorySize: int)
    requires k <= |cpts|
    ensures Base(cpts, k) * PAGE <= RangeSize(cpts, memorySize)
  {
    ImagesPrefix(cpts, k, |cpts|);
  }

  /** Checkpoint i ends where checkpoint i + 1 starts, so all occupy disjoint pages within the recorded size. */
  lemma DisjointPages(cpts: seq<Checkpoint>, i: nat, j: nat, memorySize: int)
    requires i < j < |cpts|
    ensures Base(cpts, i + 1) <= Base(cpts, j) && Base(cpts, j + 1) * PAGE <= RangeSize(cpts, memorySize)
  {
    ImagesPrefix(cpts, i + 1, j);
    RangeCovers(cpts, j + 1, memorySize);
  }

  /**
   Where a byte lands: behind all that was copied before it. That is its moved
   address exactly when no file in front is short.
   */
  lemma ByteLandsAt(cpts: seq<Checkpoint>, memorySize: int, i: nat, addr: nat)
    requires i < |cpts| && addr < |Image(cpts[i])|
    ensures var at := |Images(cpts, i)| + addr;
            && at < |MergedMemory(cpts, memorySize)|
            && MergedMemory(cpts, memorySize)[at] == cpts[i].memory[addr]
            && (at == Base(cpts, i) * PAGE + addr <==> forall k :: 0 <= k < i ==> LongEnough(cpts[k]))
  {
    ImagesLength(cpts, i);
    ImagesPrefix(cpts, i + 1, |cpts|);
    var at := |Images(cpts, i)| + addr;
    assert Images(cpts, i + 1)[at] == Image(cpts[i])[addr];
    assert Images(cpts, |cpts|)[at] == Images(cpts, i + 1)[at];
  }

  ghost predicate NoneShort(cpts: seq<Checkpoint>, k: nat)
    requires k <= |cpts|
  {
    forall i :: 0 <= i < k ==> LongEnough(cpts[i])
  }

  /** Every byte is found again at its moved address. */
  lemma MemoryPreserved(cpts: seq<Checkpoint>, memorySize: int, i: nat, addr: nat)
    requires i < |cpts| && NoneShort(cpts, i) && LongEnough(cpts[i]) && addr < PagesOf(cpts[i]) * PAGE
    ensures Base(cpts, i) * PAGE + addr < |MergedMemory(cpts, memorySize)|
    ensures MergedMemory(cpts, memorySize)[Base(cpts, i) * PAGE + addr] == cpts[i].memory[addr]
  {
    ByteLandsAt(cpts, memorySize, i, addr);
  }

  lemma RangedKeeps(all: seq<Section>, m: Section, size: nat, rest: seq<Section>)
    requires m in all && m.name != STORE
    ensures m in WithRange(all, size) + rest
  {
    var k :| 0 <= k < |all| && all[k] == m;
    assert (WithRange(all, size) + rest)[k] == m;
  }

  lemma SectionKept(cpts: seq<Checkpoint>, memorySize: int, i: nat, sec: Section, m: Section)
    requires i < |cpts| && ComesFrom(cpts, m, i, sec) && m.name != STORE
    ensures m in MergedConfig(cpts, memorySize)
  {
    AllFrom(cpts, |cpts|, m);
    RangedKeeps(AllSections(cpts, |cpts|), m, RangeSize(cpts, memorySize),
      Trailer(Base(cpts, |cpts|), |cpts|, LatestTick(cpts, |cpts|)));
  }

  /** What becomes of a section about a cpu is in the merged file. */
  lemma {:induction false} CpuSectionKept(cpts: seq<Checkpoint>, memorySize: int, i: nat, sec: Section)
    requires i < |cpts| && sec in cpts[i].sections && Mentions(sec.name)
    ensures CpuSection(sec, i, TagOf(i, |cpts|), Base(cpts, i)) in MergedConfig(cpts, memorySize)
  {
    RenamedIsNotPlain(sec.name, TagOf(i, |cpts|));
    SectionKept(cpts, memorySize, i, sec, CpuSection(sec, i, TagOf(i, |cpts|), Base(cpts, i)));
  }

  lemma MovedAddress(sec: Section, i: nat, tag: string, base: nat)
    requires "paddr" in sec.items && sec.items["paddr"].Number?
    ensures var m := CpuSection(sec, i, tag, base);
            "paddr" in m.items && m.items["paddr"] == Number(sec.items["paddr"].n + base * PAGE)
  {
    assert "paddr" != "M5_pid" by { assert |"paddr"| != |"M5_pid"|; }
  }

  /** `m` and `m'` lead, with an offset, to the same byte of their memories. */
  ghost predicate SameByte(sec: Section, memory: seq<byte>, sec': Section, memory': seq<byte>, offset: nat) {
    && "paddr" in sec.items && sec.items["paddr"].Number?
    && "paddr" in sec'.items && sec'.items["paddr"].Number?
    && sec.items["paddr"].n + offset < |memory|
    && sec'.items["paddr"].n + offset < |memory'|
    && memory[sec.items["paddr"].n + offset] == memory'[sec'.items["paddr"].n + offset]
  }

  /** A physical address of a cpu section, moved, leads to the byte it led to before. */
  lemma AddressPreserved(cpts: seq<Checkpoint>, memorySize: int, i: nat, sec: Section, offset: nat)
    requires i < |cpts| && NoneShort(cpts, i) && LongEnough(cpts[i])
    requires sec in cpts[i].sections && Mentions(sec.name) && "paddr" in sec.items && sec.items["paddr"].Number?
    requires sec.items["paddr"].n + offset < PagesOf(cpts[i]) * PAGE
    ensures exists m :: m in MergedConfig(cpts, memorySize) && m.name == Rename(sec.name, TagOf(i, |cpts|)) &&
              SameByte(sec, cpts[i].memory, m, MergedMemory(cpts, memorySize), offset)
  {
    var m := CpuSection(sec, i, TagOf(i, |cpts|), Base(cpts, i));
    assert SameByte(sec, cpts[i].memory, m, MergedMemory(cpts, memorySize), offset) by {
      MovedAddress(sec, i, TagOf(i, |cpts|), Base(cpts, i));
      MemoryPreserved(cpts, memorySize, i, sec.items["paddr"].n + offset);
    }
    CpuSectionKept(cpts, memorySize, i, sec);
  }

  // --------------------------------------------------------------- recorded size

  lemma {:induction false} PadFits(size: nat, memorySize: int)
    ensures size + PadPages(size, memorySize) * PAGE >= memorySize
    ensures PadPages(size, memorySize) > 0 ==> size + (PadPages(size, memorySize) - 1) * PAGE < memorySize
    decreases memorySize - size
  {
    if size < memorySize {
      PadFits(size + PAGE, memorySize);
    }
  }

  /**
   The recorded size covers the memory asked for with no page to spare, and it is
   the number of bytes written exactly when no image file is short.
   */
  lemma {:induction false} RangeSizeExact(cpts: seq<Checkpoint>, memorySize: int)
    ensures RangeSize(cpts, memorySize) >= memorySize
    ensures RangeSize(cpts, memorySize) >= memorySize + PAGE ==>
              RangeSize(cpts, memorySize) == Base(cpts, |cpts|) * PAGE
    ensures |MergedMemory(cpts, memorySize)| == RangeSize(cpts, memorySize) <==>
              forall i :: 0 <= i < |cpts| ==> LongEnough(cpts[i])
  {
    ImagesLength(cpts, |cpts|);
    PadFits(Base(cpts, |cpts|) * PAGE, memorySize);
  }

  // ------------------------------------------------------------- other contents

  /** The same options with the same values, but for the address and the process id. */
  ghost predicate SameOptions(sec: Section, m: Section) {
    forall key :: key != "paddr" && key != "M5_pid" ==>
      (key in m.items <==> key in sec.items) && (key in sec.items ==> m.items[key] == sec.items[key])
  }

  /** In the merged file every section about a cpu has, under its new name, all its options. */
  lemma OptionsKept(cpts: seq<Checkpoint>, memorySize: int, i: nat, sec: Section)
    requires i < |cpts| && sec in cpts[i].sections && Mentions(sec.name)
    ensures exists m :: m in MergedConfig(cpts, memorySize) && m.name == Rename(sec.name, TagOf(i, |cpts|)) &&
              SameOptions(sec, m)
  {
    var m := CpuSection(sec, i, TagOf(i, |cpts|), Base(cpts, i));
    CpuSectionKept(cpts, memorySize, i, sec);
    assert SameOptions(sec, m);
  }

  ghost predicate HasProcessId(m: Section, id: nat) {
    "M5_pid" in m.items && m.items["M5_pid"] == Number(id)
  }

  lemma FdMapKept(cpts: seq<Checkpoint>, memorySize: int, i: nat, sec: Section)
    requires i < |cpts| && sec in cpts[i].sections && Mentions(sec.name) && IsFdMap(sec.name)
    ensures exists m :: m in MergedConfig(cpts, memorySize) && m.name == Rename(sec.name, TagOf(i, |cpts|)) &&
              HasProcessId(m, i)
  {
    CpuSectionKept(cpts, memorySize, i, sec);
    assert HasProcessId(CpuSection(sec, i, TagOf(i, |cpts|), Base(cpts, i)), i);
  }

  /** In the merged file, file descriptor maps of different checkpoints have different process ids. */
  lemma ProcessIdsDiffer(cpts: seq<Checkpoint>, memorySize: int,
                         m: Section, i: nat, a: Section, n: Section, j: nat, b: Section)
    requires forall k :: 0 <= k < |cpts| ==> DistinctNames(cpts[k].sections)
    requires i < |cpts| && a in cpts[i].sections && Mentions(a.name) && IsFdMap(a.name)
    requires j < |cpts| && b in cpts[j].sections && Mentions(b.name) && IsFdMap(b.name)
    requires m in MergedConfig(cpts, memorySize) && m.name == Rename(a.name, TagOf(i, |cpts|))
    requires n in MergedConfig(cpts, memorySize) && n.name == Rename(b.name, TagOf(j, |cpts|))
    ensures "M5_pid" in m.items && "M5_pid" in n.items
    ensures m.items["M5_pid"] == n.items["M5_pid"] <==> i == j
  {
    NoCollisions(cpts, memorySize);
    FdMapKept(cpts, memorySize, i, a);
    FdMapKept(cpts, memorySize, j, b);
  }

  /** A section gives the tick t. */
  ghost predicate Ticks(sec: Section, t: nat) {
    sec.name == "Globals" && "curTick" in sec.items && sec.items["curTick"] == Number(t)
  }

  lemma {:induction false} MergeTickIsMax(secs: seq<Section>, t: nat)
    ensures MergeTick(secs, t) >= t
    ensures forall sec, u: nat :: sec in secs && Ticks(sec, u) ==> u <= MergeTick(secs, t)
    ensures MergeTick(secs, t) == t || exists sec :: sec in secs && Ticks(sec, MergeTick(secs, t))
  {
    if secs != [] {
      var init, last := secs[..|secs| - 1], secs[|secs| - 1];
      MergeTickIsMax(init, t);
      assert secs == init + [last] && last in secs;
    }
  }

  /** The merged tick is the latest of all checkpoints, or 0 if none has one. */
  lemma {:induction false} LatestTickIsMax(cpts: seq<Checkpoint>, k: nat)
    requires k <= |cpts|
    ensures forall i, sec, u: nat :: 0 <= i < k && sec in cpts[i].sections && Ticks(sec, u) ==> u <= LatestTick(cpts, k)
    ensures LatestTick(cpts, k) == 0 ||
            exists i, sec :: 0 <= i < k && sec in cpts[i].sections && Ticks(sec, LatestTick(cpts, k))
  {
    if k > 0 {
      LatestTickIsMax(cpts, k - 1);
      MergeTickIsMax(cpts[k - 1].sections, LatestTick(cpts, k - 1));
    }
  }
}
