/**
 `checkpoint_aggregator.py`: several checkpoints are merged into one. The memory
 images are laid end to end, physical addresses are moved accordingly, and the
 number of the checkpoint is worked into the name of every section about a cpu.
 */
module Aggregator {
  import opened Arith
  import opened Bytes
  import opened Text

  const PAGE := 4096

  /** The text of an option: a number in decimal, or anything else. */
  datatype Entry = Number(n: nat) | Word(s: string)

  datatype Section = Section(name: string, items: map<string, Entry>)

  datatype Checkpoint = Checkpoint(sections: seq<Section>, memory: seq<byte>)

  datatype Merged = Merged(config: seq<Section>, memory: seq<byte>)
  datatype Result = Ok(value: Merged) | Failed

  // ---------------------------------------------------------------- one section

  predicate StartsWithCpu(s: string) {
    |s| >= 3 && s[..3] == "cpu"
  }

  predicate Mentions(s: string) {
    s != [] && (StartsWithCpu(s) || Mentions(s[1..]))
  }

  /** `re.sub("cpu", "cpu" + tag, s)` */
  function Rename(s: string, tag: string): string {
    if s == [] then []
    else if StartsWithCpu(s) then "cpu" + tag + Rename(s[3..], tag)
    else [s[0]] + Rename(s[1..], tag)
  }

  /** The pattern `workload.FdMap256$`. */
  predicate IsFdMap(s: string) {
    |s| >= 17 && s[|s| - 17..|s| - 9] == "workload" && s[|s| - 8..] == "FdMap256"
  }

  function Width(count: nat): nat
    requires count > 0
  {
    |Str(count - 1)|
  }

  function TagOf(i: nat, count: nat): string
    requires count > 0
  {
    Zfill(Str(i), Width(count))
  }

  function CpuSection(sec: Section, i: nat, tag: string, base: nat): Section {
    var moved := map k | k in sec.items ::
      if k == "paddr" && sec.items[k].Number? then Number(sec.items[k].n + base * PAGE) else sec.items[k];
    Section(Rename(sec.name, tag), if IsFdMap(sec.name) then moved["M5_pid" := Number(i)] else moved)
  }

  predicate Readable(sec: Section) {
    if Mentions(sec.name) then "paddr" in sec.items ==> sec.items["paddr"].Number?
    else sec.name == "Globals" ==> "curTick" in sec.items && sec.items["curTick"].Number?
  }

  // ------------------------------------------------------------- one checkpoint

  ghost predicate DistinctNames(secs: seq<Section>) {
    forall i, j :: 0 <= i < j < |secs| ==> secs[i].name != secs[j].name
  }

  function Lookup(secs: seq<Section>, name: string): Option<Section> {
    if secs == [] then None
    else if secs[0].name == name then Some(secs[0]) else Lookup(secs[1..], name)
  }

  function Pages(c: Checkpoint): Option<nat> {
    match Lookup(c.sections, "system")
    case None => None
    case Some(sec) =>
      if "pagePtr" in sec.items && sec.items["pagePtr"].Number? then Some(sec.items["pagePtr"].n) else None
  }

  predicate Loads(c: Checkpoint) {
    Pages(c).Some? && forall i :: 0 <= i < |c.sections| ==> Readable(c.sections[i])
  }

  /** What a section contributes to the merged file; only the last checkpoint gives its other sections. */
  function Contribution(sec: Section, i: nat, tag: string, base: nat, last: bool): seq<Section> {
    if Mentions(sec.name) then [CpuSection(sec, i, tag, base)]
    else if sec.name == "system" || sec.name == "Globals" then []
    else if last then [sec] else []
  }

  function MergeSections(secs: seq<Section>, i: nat, tag: string, base: nat, last: bool): seq<Section> {
    if secs == [] then []
    else MergeSections(secs[..|secs| - 1], i, tag, base, last) + Contribution(secs[|secs| - 1], i, tag, base, last)
  }

  function Later(sec: Section, t: nat): nat {
    if sec.name == "Globals" && "curTick" in sec.items && sec.items["curTick"].Number? && sec.items["curTick"].n > t
    then sec.items["curTick"].n else t
  }

  function MergeTick(secs: seq<Section>, t: nat): nat {
    if secs == [] then t else Later(secs[|secs| - 1], MergeTick(secs[..|secs| - 1], t))
  }

  /** What has been gathered from the first k sections. */
  ghost predicate Gathered(all: seq<Section>, k: nat, i: nat, tag: string, base: nat, last: bool, t: nat,
                           secs: seq<Section>, tick: nat)
    requires k <= |all|
  {
    secs == MergeSections(all[..k], i, tag, base, last) && tick == MergeTick(all[..k], t)
  }

  lemma GatherOne(all: seq<Section>, k: nat, i: nat, tag: string, base: nat, last: bool, t: nat,
                  secs: seq<Section>, tick: nat)
    requires k < |all| && Gathered(all, k, i, tag, base, last, t, secs, tick)
    ensures var more := Contribution(all[k], i, tag, base, last);
            Gathered(all, k + 1, i, tag, base, last, t, secs + more, Later(all[k], tick))
  {
    assert all[..k + 1][..k] == all[..k];
  }

  function PagesOf(c: Checkpoint): nat {
    if Pages(c).Some? then Pages(c).value else 0
  }

  /** The bytes read for a checkpoint: its pages, or the whole file if that is shorter. */
  function Image(c: Checkpoint): seq<byte> {
    c.memory[..Min(|c.memory|, PagesOf(c) * PAGE)]
  }

  // ------------------------------------------------------------- all checkpoints

  /** The page at which checkpoint k is to start. */
  function Base(cpts: seq<Checkpoint>, k: nat): nat
    requires k <= |cpts|
  {
    if k == 0 then 0 else Base(cpts, k - 1) + PagesOf(cpts[k - 1])
  }

  function Images(cpts: seq<Checkpoint>, k: nat): seq<byte>
    requires k <= |cpts|
  {
    if k == 0 then [] else Images(cpts, k - 1) + Image(cpts[k - 1])
  }

  function AllSections(cpts: seq<Checkpoint>, k: nat): seq<Section>
    requires k <= |cpts|
  {
    if k == 0 then []
    else
      AllSections(cpts, k - 1) +
      MergeSections(cpts[k - 1].sections, k - 1, TagOf(k - 1, |cpts|), Base(cpts, k - 1), k == |cpts|)
  }

  function LatestTick(cpts: seq<Checkpoint>, k: nat): nat
    requires k <= |cpts|
  {
    if k == 0 then 0 else MergeTick(cpts[k - 1].sections, LatestTick(cpts, k - 1))
  }

  function PadPages(size: nat, memorySize: int): nat
    decreases memorySize - size
  {
    if size >= memorySize then 0 else 1 + PadPages(size + PAGE, memorySize)
  }

  /** The filler is the character '0'. */
  function Filler(pages: nat): seq<byte> {
    seq(pages * PAGE, _ => 0x30)
  }

  function RangeSize(cpts: seq<Checkpoint>, memorySize: int): nat {
    var pages := Base(cpts, |cpts|);
    (pages + PadPages(pages * PAGE, memorySize)) * PAGE
  }

  const STORE := "system.physmem.store0"

  function WithRange(secs: seq<Section>, size: nat): seq<Section> {
    seq(|secs|, i requires 0 <= i < |secs| =>
      if secs[i].name == STORE then Section(STORE, secs[i].items["range_size" := Number(size)]) else secs[i])
  }

  function Trailer(pagePtr: nat, nextPid: nat, curTick: nat): seq<Section> {
    [Section("system", map["pagePtr" := Number(pagePtr), "nextPID" := Number(nextPid)]),
     Section("Globals", map["curTick" := Number(curTick)])]
  }

  predicate HasStore(c: Checkpoint) {
    exists i :: 0 <= i < |c.sections| && c.sections[i].name == STORE
  }

  /** Nothing stops the script: all that it reads is there, and the last checkpoint names the memory. */
  ghost predicate CanMerge(cpts: seq<Checkpoint>) {
    cpts != [] && (forall i :: 0 <= i < |cpts| ==> Loads(cpts[i])) && HasStore(cpts[|cpts| - 1])
  }

  function MergedConfig(cpts: seq<Checkpoint>, memorySize: int): seq<Section> {
    WithRange(AllSections(cpts, |cpts|), RangeSize(cpts, memorySize)) +
    Trailer(Base(cpts, |cpts|), |cpts|, LatestTick(cpts, |cpts|))
  }

  function MergedMemory(cpts: seq<Checkpoint>, memorySize: int): seq<byte> {
    Images(cpts, |cpts|) + Filler(PadPages(Base(cpts, |cpts|) * PAGE, memorySize))
  }

  // ------------------------------------------------------------------ the script

  /** Lines 64-89: one section. */
  method MergeSection(sec: Section, i: nat, tag: string, base: nat, last: bool, tick: nat)
    returns (secs: seq<Section>, maxTick: nat)
    requires Readable(sec)
    ensures secs == Contribution(sec, i, tag, base, last) && maxTick == Later(sec, tick)
  {
    secs, maxTick := [], tick;
    if Mentions(sec.name) {
      PlainNames();
      secs := [CpuSection(sec, i, tag, base)];
    } else if sec.name == "system" {
    } else if sec.name == "Globals" {
      if sec.items["curTick"].n > maxTick {
        maxTick := sec.items["curTick"].n;
      }
    } else if last {
      secs := [sec];
    }
  }

  /** Lines 64-89. */
  method MergeOne(c: Checkpoint, i: nat, tag: string, base: nat, last: bool, tick: nat)
    returns (ok: bool, secs: seq<Section>, maxTick: nat)
    ensures ok <==> forall k :: 0 <= k < |c.sections| ==> Readable(c.sections[k])
    ensures ok ==> secs == MergeSections(c.sections, i, tag, base, last) && maxTick == MergeTick(c.sections, tick)
  {
    secs, maxTick := [], tick;
    for k := 0 to |c.sections|
      invariant forall j :: 0 <= j < k ==> Readable(c.sections[j])
      invariant Gathered(c.sections, k, i, tag, base, last, tick, secs, maxTick)
    {
      if !Readable(c.sections[k]) {
        return false, secs, maxTick;
      }
      GatherOne(c.sections, k, i, tag, base, last, tick, secs, maxTick);
      var part, later := MergeSection(c.sections[k], i, tag, base, last, maxTick);
      secs, maxTick := secs + part, later;
    }
    assert c.sections[..|c.sections|] == c.sections;
    ok := true;
  }

  lemma {:induction false} NoMention(s: string)
    requires 'c' !in s
    ensures !Mentions(s)
  {
    if s != [] {
      NoMention(s[1..]);
      assert s[0] in s;
    }
  }

  lemma PlainTrailer()
    ensures !Mentions("Globals") && !Mentions("system")
  {
    NoMention("Globals");
    NoMention("system");
  }

  lemma PlainStore()
    ensures !Mentions(STORE)
  {
    NoMention(STORE);
  }

  lemma PlainNames()
    ensures !Mentions("Globals") && !Mentions("system") && !Mentions(STORE)
  {
    PlainTrailer();
    PlainStore();
  }

  /** Lines 102-109: the pages are read one at a time; a short file gives short reads. */
  method CopyPages(memory: seq<byte>, pages: nat) returns (out: seq<byte>)
    ensures out == memory[..Min(|memory|, pages * PAGE)]
  {
    var x := 0;
    out := [];
    while x < pages
      invariant x <= pages && out == memory[..Min(|memory|, x * PAGE)]
    {
      var bytesRead := memory[|out|..Min(|memory|, |out| + PAGE)];
      assert memory[..Min(|memory|, (x + 1) * PAGE)] == memory[..|out|] + bytesRead;
      out := out + bytesRead;
      x := x + 1;
    }
  }

  /** Lines 118-126. */
  method Pad(pagePtr: nat, memorySize: int) returns (pages: nat, filler: seq<byte>)
    ensures pages == pagePtr + PadPages(pagePtr * PAGE, memorySize)
    ensures filler == Filler(pages - pagePtr)
  {
    pages, filler := pagePtr, [];
    var fileSize := pagePtr * PAGE;
    while fileSize < memorySize
      invariant pages >= pagePtr && fileSize == pages * PAGE && filler == Filler(pages - pagePtr)
      invariant pages + PadPages(fileSize, memorySize) == pagePtr + PadPages(pagePtr * PAGE, memorySize)
      decreases memorySize - fileSize
    {
      filler := filler + Filler(1);
      fileSize := fileSize + PAGE;
      pages := pages + 1;
    }
  }

  /** What the first n checkpoints give. */
  datatype Progress = Progress(pagePtr: nat, maxCurtick: nat, config: seq<Section>, memory: seq<byte>)

  ghost function After(cpts: seq<Checkpoint>, n: nat): Progress
    requires n <= |cpts|
  {
    Progress(Base(cpts, n), LatestTick(cpts, n), AllSections(cpts, n), Images(cpts, n))
  }

  /** Lines 58-112 for one checkpoint. */
  method MergeNext(cpts: seq<Checkpoint>, i: nat, before: Progress) returns (ok: bool, p: Progress)
    requires i < |cpts| && before == After(cpts, i)
    ensures ok <==> Loads(cpts[i])
    ensures ok ==> p == After(cpts, i + 1)
  {
    p := before;
    var secs, tick;
    ok, secs, tick := MergeOne(cpts[i], i, TagOf(i, |cpts|), p.pagePtr, i == |cpts| - 1, p.maxCurtick);
    ok := ok && Pages(cpts[i]).Some?;
    if ok {
      var image := CopyPages(cpts[i].memory, Pages(cpts[i]).value);
      p := Progress(p.pagePtr + Pages(cpts[i]).value, tick, p.config + secs, p.memory + image);
    }
  }

  /** Lines 58-112: all checkpoints one after the other. */
  method MergeAll(cpts: seq<Checkpoint>) returns (ok: bool, p: Progress)
    ensures ok <==> forall k :: 0 <= k < |cpts| ==> Loads(cpts[k])
    ensures ok ==> p == After(cpts, |cpts|)
  {
    p := Progress(0, 0, [], []);
    for i := 0 to |cpts|
      invariant forall k :: 0 <= k < i ==> Loads(cpts[k])
      invariant p == After(cpts, i)
    {
      ok, p := MergeNext(cpts, i, p);
      if !ok {
        return;
      }
    }
    ok := true;
  }

  ghost function Finished(p: Progress, count: nat, memorySize: int): Merged {
    var filling := PadPages(p.pagePtr * PAGE, memorySize);
    Merged(WithRange(p.config, (p.pagePtr + filling) * PAGE) + Trailer(p.pagePtr, count, p.maxCurtick),
           p.memory + Filler(filling))
  }

  /** Lines 114-136. */
  method Finish(p: Progress, count: nat, memorySize: int) returns (m: Merged)
    ensures m == Finished(p, count, memorySize)
  {
    var pages, filler := Pad(p.pagePtr, memorySize);
    var merged := WithRange(p.config, pages * PAGE) + Trailer(p.pagePtr, count, p.maxCurtick);
    m := Merged(merged, p.memory + filler);
  }

  lemma FinishedIsMerged(cpts: seq<Checkpoint>, memorySize: int)
    ensures Finished(After(cpts, |cpts|), |cpts|, memorySize) ==
            Merged(MergedConfig(cpts, memorySize), MergedMemory(cpts, memorySize))
  {
  }

  method Aggregate(cpts: seq<Checkpoint>, memorySize: int) returns (r: Result)
    ensures r.Ok? <==> CanMerge(cpts)
    ensures r.Ok? ==> r.value == Merged(MergedConfig(cpts, memorySize), MergedMemory(cpts, memorySize))
  {
    var ok, p := MergeAll(cpts);
    if !ok || cpts == [] || !HasStore(cpts[|cpts| - 1]) {
      return Failed;
    }
    FinishedIsMerged(cpts, memorySize);
    var merged := Finish(p, |cpts|, memorySize);
    r := Ok(merged);
  }
}
