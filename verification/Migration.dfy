/**
 The migration loop of `process_file` in `cpt_upgrader.py`. A round finds the
 migrations whose dependencies are met and applies them in whatever order the
 set yields them; a round that finds none aborts.
 */
module Migration {
  import opened Sets
  import opened Sorting
  import opened CptUpgrader

  datatype Outcome = Migrated(tags: set<Tag>) | Aborted(tags: set<Tag>, left: set<Tag>)

  function ReadySet(reg: Registry, tags: set<Tag>, left: set<Tag>): set<Tag>
    requires left <= reg.byTag.Keys
  {
    set t | t in left && reg.Ready(t, tags)
  }

  function ApplyRound(reg: Registry, tags: set<Tag>, ready: set<Tag>): set<Tag> {
    (tags + ready * reg.tagSet) - ready * reg.untagSet
  }

  /** What the loop arrives at, which no order within a round can change. */
  function Rounds(reg: Registry, tags: set<Tag>, left: set<Tag>): Outcome
    requires left <= reg.byTag.Keys
    decreases left
  {
    if left == {} then Migrated(tags)
    else
      var ready := ReadySet(reg, tags, left);
      if ready == {} then Aborted(tags, left)
      else
        assert left - ready < left;
        Rounds(reg, ApplyRound(reg, tags, ready), left - ready)
  }

  function Migrate(reg: Registry, tags: set<Tag>): Outcome
    requires reg.Valid()
  {
    Rounds(reg, tags, reg.Pending(tags))
  }

  // ------------------------------------------------------------------ the loop

  ghost function SetOf(s: seq<Tag>): set<Tag> {
    set t | t in s
  }

  /** Whatever a migration in the log depends on was there from the start or was applied before. */
  ghost predicate AfterDependencies(reg: Registry, start: set<Tag>, log: seq<Tag>) {
    forall i, d :: 0 <= i < |log| && reg.DependsOn(log[i], d) ==> d in start || d in log[..i]
  }

  /** The log of a run: each pending migration not left over, once, behind what it depends on. */
  ghost predicate GoodLog(reg: Registry, start: set<Tag>, left: set<Tag>, log: seq<Tag>) {
    && NoDuplicates(log)
    && SetOf(log) == reg.Pending(start) - left
    && AfterDependencies(reg, start, log)
  }

  lemma LogExtend(reg: Registry, start: set<Tag>, log: seq<Tag>, t: Tag)
    requires NoDuplicates(log) && AfterDependencies(reg, start, log) && t !in log
    requires forall d :: reg.DependsOn(t, d) ==> d in start || d in log
    ensures NoDuplicates(log + [t]) && AfterDependencies(reg, start, log + [t])
    ensures SetOf(log + [t]) == SetOf(log) + {t}
  {
    var l := log + [t];
    forall i, d | 0 <= i < |l| && reg.DependsOn(l[i], d) ensures d in start || d in l[..i] {
      assert l[..i] == log[..i];
      assert i == |log| ==> log[..i] == log;
    }
  }

  /** Lines 247-251: one round; the order of `ready` is the set's own. */
  method RunRound(reg: Registry, tags0: set<Tag>, ready: set<Tag>, log0: seq<Tag>, ghost start: set<Tag>)
    returns (tags: set<Tag>, log: seq<Tag>)
    requires reg.Valid() && reg.Disjoint() && ready <= reg.byTag.Keys
    requires ready * reg.untagSet <= tags0
    requires NoDuplicates(log0) && AfterDependencies(reg, start, log0) && SetOf(log0) !! ready
    requires forall t, d :: t in ready && reg.DependsOn(t, d) ==> d in start || d in log0
    ensures tags == ApplyRound(reg, tags0, ready)
    ensures NoDuplicates(log) && AfterDependencies(reg, start, log) && SetOf(log) == SetOf(log0) + ready
  {
    tags, log := tags0, log0;
    var todo := ready;
    while todo != {}
      invariant todo <= ready && tags == ApplyRound(reg, tags0, ready - todo)
      invariant NoDuplicates(log) && AfterDependencies(reg, start, log)
      invariant SetOf(log) == SetOf(log0) + (ready - todo)
      decreases todo
    {
      var tag :| tag in todo;
      assert tag in reg.byTag;
      assert tag !in SetOf(log);
      forall d | reg.DependsOn(tag, d) ensures d in start || d in log {
        assert d in log0 ==> d in SetOf(log0);
        assert d in SetOf(log) ==> d in log;
      }
      LogExtend(reg, start, log, tag);
      if reg.byTag[tag].upgrades {
        tags := tags + {tag};
      } else {
        assert tag in tags;  // set.remove does not fail
        tags := tags - {tag};
      }
      log := log + [tag];
      todo := todo - {tag};
    }
  }

  /** What the loop keeps between two rounds. */
  ghost predicate LoopInv(reg: Registry, start: set<Tag>, tags: set<Tag>, left: set<Tag>) {
    && left <= reg.Pending(start)
    && tags == ApplyRound(reg, start, reg.Pending(start) - left)
  }

  lemma RoundKeepsInv(reg: Registry, start: set<Tag>, tags: set<Tag>, left: set<Tag>, ready: set<Tag>)
    requires reg.Disjoint() && LoopInv(reg, start, tags, left) && ready <= left
    ensures LoopInv(reg, start, ApplyRound(reg, tags, ready), left - ready)
    ensures ready * reg.untagSet <= tags
  {
    var done, done' := reg.Pending(start) - left, reg.Pending(start) - (left - ready);
    assert done' == done + ready;
    assert ApplyRound(reg, tags, ready) == ApplyRound(reg, start, done');
  }

  /** What a ready migration depends on was there or has been applied. */
  lemma ReadyMeansLogged(reg: Registry, start: set<Tag>, tags: set<Tag>, left: set<Tag>, log: seq<Tag>)
    requires reg.Valid() && LoopInv(reg, start, tags, left) && GoodLog(reg, start, left, log)
    ensures forall t, d :: t in ReadySet(reg, tags, left) && reg.DependsOn(t, d) ==> d in start || d in log
  {
    forall t, d | t in ReadySet(reg, tags, left) && reg.DependsOn(t, d) ensures d in start || d in log {
      assert d in tags;
      assert d in start || d in SetOf(log);
    }
  }

  /** Lines 237-251: the loop, with the order in which it applied the migrations. */
  method ApplyMigrations(reg: Registry, start: set<Tag>) returns (r: Outcome, log: seq<Tag>)
    requires reg.Valid() && reg.Disjoint()
    ensures r == Migrate(reg, start)
    ensures GoodLog(reg, start, if r.Aborted? then r.left else {}, log)
  {
    var tags, toApply := start, reg.Pending(start);
    log := [];
    assert ApplyRound(reg, start, {}) == start;
    while toApply != {}
      invariant LoopInv(reg, start, tags, toApply)
      invariant GoodLog(reg, start, toApply, log)
      invariant Rounds(reg, tags, toApply) == Migrate(reg, start)
      decreases toApply
    {
      var ready := ReadySet(reg, tags, toApply);
      if ready == {} {
        return Aborted(tags, toApply), log;
      }
      RoundKeepsInv(reg, start, tags, toApply, ready);
      ReadyMeansLogged(reg, start, tags, toApply, log);
      tags, log := RunRound(reg, tags, ready, log, start);
      toApply := toApply - ready;
    }
    r := Migrated(tags);
  }

  // ------------------------------------------------------------- what it leaves

  lemma {:induction false} RoundsResult(reg: Registry, start: set<Tag>, tags: set<Tag>, left: set<Tag>)
    requires reg.Valid() && reg.Disjoint() && LoopInv(reg, start, tags, left)
    ensures match Rounds(reg, tags, left)
            case Migrated(end) => end == (start + reg.tagSet) - reg.untagSet
            case Aborted(end, rest) => LoopInv(reg, start, end, rest) && rest != {} && ReadySet(reg, end, rest) == {}
    decreases left
  {
    if left == {} {
    } else {
      var ready := ReadySet(reg, tags, left);
      if ready != {} {
        RoundKeepsInv(reg, start, tags, left, ready);
        assert left - ready < left;
        RoundsResult(reg, start, ApplyRound(reg, tags, ready), left - ready);
      }
    }
  }

  /** A run that does not abort ends with all upgrades, no downgraded tag, and every other tag as it was. */
  lemma MigratedTags(reg: Registry, start: set<Tag>)
    requires reg.Valid() && reg.Disjoint() && Migrate(reg, start).Migrated?
    ensures Migrate(reg, start).tags == (start + reg.tagSet) - reg.untagSet
  {
    assert ApplyRound(reg, start, {}) == start;
    RoundsResult(reg, start, start, reg.Pending(start));
  }

  /** A second run finds nothing to apply. */
  lemma SecondRunIsNoop(reg: Registry, start: set<Tag>)
    requires reg.Valid() && reg.Disjoint() && Migrate(reg, start).Migrated?
    ensures var end := Migrate(reg, start).tags; reg.Pending(end) == {} && Migrate(reg, end) == Migrated(end)
  {
    MigratedTags(reg, start);
    assert reg.Pending(Migrate(reg, start).tags) == {};
  }

  // ------------------------------------------------------------ when it aborts

  ghost predicate WaitsFor(reg: Registry, t: Tag, s: set<Tag>) {
    exists d :: d in s && reg.DependsOn(t, d)
  }

  /** Every tag of the set waits for a tag of the set. */
  ghost predicate Knot(reg: Registry, s: set<Tag>) {
    s != {} && forall t {:trigger WaitsFor(reg, t, s)} :: t in s ==> WaitsFor(reg, t, s)
  }

  lemma {:induction false} KnotAborts(reg: Registry, tags: set<Tag>, left: set<Tag>, s: set<Tag>)
    requires left <= reg.byTag.Keys && Knot(reg, s) && s <= left && s !! tags
    ensures Rounds(reg, tags, left).Aborted? && s <= Rounds(reg, tags, left).left
    decreases left
  {
    var ready := ReadySet(reg, tags, left);
    forall t | t in s ensures t !in ready {
      assert WaitsFor(reg, t, s);
      var d :| d in s && reg.DependsOn(t, d);
      assert d !in tags;
    }
    if ready != {} {
      assert left - ready < left;
      KnotAborts(reg, ApplyRound(reg, tags, ready), left - ready, s);
    }
  }

  /** A walk along dependencies within `s`. */
  ghost predicate Walk(reg: Registry, s: set<Tag>, c: seq<Tag>) {
    && (forall i :: 0 <= i < |c| ==> c[i] in s)
    && (forall i :: 0 <= i < |c| - 1 ==> reg.DependsOn(c[i], c[i + 1]))
  }

  /** A walk that comes back to where it started. */
  ghost predicate Cycle(reg: Registry, s: set<Tag>, c: seq<Tag>) {
    |c| >= 2 && Walk(reg, s, c) && c[0] == c[|c| - 1]
  }

  lemma CycleIsKnot(reg: Registry, s: set<Tag>, c: seq<Tag>)
    requires Cycle(reg, s, c)
    ensures Knot(reg, SetOf(c)) && SetOf(c) <= s
  {
    assert c[0] in SetOf(c);
    forall t | t in SetOf(c) ensures WaitsFor(reg, t, SetOf(c)) {
      var i :| 0 <= i < |c| && c[i] == t;
      var j := if i == |c| - 1 then 0 else i;
      assert c[j] == t && reg.DependsOn(c[j], c[j + 1]) && c[j + 1] in SetOf(c);
    }
  }

  lemma {:induction false} LongWalk(reg: Registry, s: set<Tag>, n: nat) returns (c: seq<Tag>)
    requires Knot(reg, s)
    ensures |c| == n + 1 && Walk(reg, s, c)
  {
    if n == 0 {
      var t :| t in s;
      c := [t];
    } else {
      var b := LongWalk(reg, s, n - 1);
      assert WaitsFor(reg, b[n - 1], s);
      var d :| d in s && reg.DependsOn(b[n - 1], d);
      c := b + [d];
    }
  }

  lemma KnotHasCycle(reg: Registry, s: set<Tag>) returns (c: seq<Tag>)
    requires Knot(reg, s)
    ensures Cycle(reg, s, c)
  {
    var w := LongWalk(reg, s, |s|);
    if NoDuplicates(w) {
      NoDuplicatesCard(w);
      SubsetCard((set x | x in w), s);
      assert false;
    }
    var i, j :| 0 <= i < j < |w| && w[i] == w[j];
    c := w[i..j + 1];
  }

  // ------------------------------------------------- depending on a downgraded tag

  /** The round in which a migration is applied, when it is. */
  ghost function RoundOf(reg: Registry, tags: set<Tag>, left: set<Tag>, t: Tag): nat
    requires left <= reg.byTag.Keys && t in left && Rounds(reg, tags, left).Migrated?
    decreases left
  {
    var ready := ReadySet(reg, tags, left);
    assert left - ready < left;
    if t in ready then 0 else 1 + RoundOf(reg, ApplyRound(reg, tags, ready), left - ready, t)
  }

  /** A tag that has been taken away does not come back, so what depends on it never gets ready. */
  lemma {:induction false} AbsentDependencyAborts(reg: Registry, tags: set<Tag>, left: set<Tag>, t: Tag, d: Tag)
    requires reg.Disjoint() && left <= reg.byTag.Keys && t in left && reg.DependsOn(t, d)
    requires d in reg.untagSet && d !in tags
    ensures Rounds(reg, tags, left).Aborted?
    decreases left
  {
    var ready := ReadySet(reg, tags, left);
    assert t !in ready;
    if ready != {} {
      assert left - ready < left;
      AbsentDependencyAborts(reg, ApplyRound(reg, tags, ready), left - ready, t, d);
    }
  }

  lemma {:induction false} DowngraderNotAwaited(reg: Registry, tags: set<Tag>, left: set<Tag>, t: Tag, d: Tag)
    requires reg.Valid() && reg.Disjoint() && left <= reg.byTag.Keys && Rounds(reg, tags, left).Migrated?
    requires t in left && reg.DependsOn(t, d) && d in reg.untagSet && d in left
    ensures d in tags && RoundOf(reg, tags, left, t) <= RoundOf(reg, tags, left, d)
    decreases left
  {
    if d !in tags {
      AbsentDependencyAborts(reg, tags, left, t, d);
      assert false;
    }
    var ready := ReadySet(reg, tags, left);
    assert left - ready < left;
    if t !in ready {
      var tags', left' := ApplyRound(reg, tags, ready), left - ready;
      if d in ready {
        AbsentDependencyAborts(reg, tags', left', t, d);
        assert false;
      }
      DowngraderNotAwaited(reg, tags', left', t, d);
    }
  }

  /**
   The header comment says that a tag depending on a downgraded tag insists on the
   removal of that tag. In the code it insists on its presence: a checkpoint
   without that tag cannot be migrated, and otherwise the dependent migration runs
   in the round of the downgrader or before.
   */
  lemma {:induction false} DependingOnDowngraded(reg: Registry, start: set<Tag>, t: Tag, d: Tag)
    requires reg.Valid() && reg.Disjoint() && t in reg.Pending(start)
    requires reg.DependsOn(t, d) && d in reg.untagSet
    ensures d !in start ==> Migrate(reg, start).Aborted?
    ensures Migrate(reg, start).Migrated? ==>
              d in start && RoundOf(reg, start, reg.Pending(start), t) <= RoundOf(reg, start, reg.Pending(start), d)
  {
    if d !in start {
      AbsentDependencyAborts(reg, start, reg.Pending(start), t, d);
    } else if Migrate(reg, start).Migrated? {
      DowngraderNotAwaited(reg, start, reg.Pending(start), t, d);
    }
  }

  /** Two tags, one of which depends on the other, which is downgraded. */
  function Example(t: Tag, d: Tag): Registry
    requires t != d
  {
    Registry(map[t := Script([d], [], true), d := Script([], [], false)], {t}, {d}, map[])
  }

  /**
   Contrary to the header comment the dependent migration does not wait for the
   removal: with the downgraded tag there, both run in round 0; without it, the run aborts.
   */
  lemma {:induction false} DowngradedExample(t: Tag, d: Tag)
    requires t != d
    ensures var reg := Example(t, d);
            && reg.Valid() && reg.Disjoint() && reg.Pending({d}) == {t, d}
            && Migrate(reg, {d}) == Migrated({t})
            && RoundOf(reg, {d}, {t, d}, t) == 0 && RoundOf(reg, {d}, {t, d}, d) == 0
            && Migrate(reg, {}) == Aborted({}, {t})
  {
    var reg := Example(t, d);
    assert reg.Pending({d}) == {t, d} && ReadySet(reg, {d}, {t, d}) == {t, d};
    assert ApplyRound(reg, {d}, {t, d}) == {t} && {t, d} - {t, d} == {};
    assert {t, d} != {} && Rounds(reg, {t}, {}) == Migrated({t});
    assert Rounds(reg, {d}, {t, d}) == Migrated({t});
    assert reg.Pending({}) == {t} && d in reg.byTag[t].depends;
    assert ReadySet(reg, {}, {t}) == {};
  }

  // ------------------------------------------------------- aborting, in general

  /** The registry, but downgraders take nothing away: tags only grow. */
  function Growing(reg: Registry): Registry {
    reg.(untagSet := {})
  }

  /** No downgrader runs in an earlier round than a migration that depends on its tag. */
  ghost predicate InTime(reg: Registry, tags: set<Tag>, left: set<Tag>)
    requires left <= reg.byTag.Keys && Rounds(Growing(reg), tags, left).Migrated?
  {
    forall t, d :: t in left && d in left * reg.untagSet && reg.DependsOn(t, d) ==>
      RoundOf(Growing(reg), tags, left, t) <= RoundOf(Growing(reg), tags, left, d)
  }

  /** `grown` has in addition only tags that were taken away, of downgraders that are done. */
  ghost predicate Ahead(reg: Registry, tags: set<Tag>, grown: set<Tag>, left: set<Tag>) {
    left <= reg.byTag.Keys && tags <= grown && grown - tags <= reg.untagSet - left
  }

  lemma {:induction false} AheadStep(reg: Registry, tags: set<Tag>, grown: set<Tag>, left: set<Tag>, ready: set<Tag>)
    requires reg.Disjoint() && Ahead(reg, tags, grown, left) && ready <= left
    ensures Ahead(reg, ApplyRound(reg, tags, ready), ApplyRound(Growing(reg), grown, ready), left - ready)
  {
    var tags', grown' := ApplyRound(reg, tags, ready), ApplyRound(Growing(reg), grown, ready);
    forall x | x in grown' && x !in tags' ensures x in reg.untagSet && x !in left - ready {
      assert x in grown - tags || x in ready * reg.untagSet;
    }
  }

  /** As long as the run gets through, the growing one finds the same migrations ready. */
  lemma {:induction false} SameReady(reg: Registry, tags: set<Tag>, grown: set<Tag>, left: set<Tag>)
    requires reg.Disjoint() && Ahead(reg, tags, grown, left) && Rounds(reg, tags, left).Migrated?
    ensures ReadySet(Growing(reg), grown, left) == ReadySet(reg, tags, left)
  {
    forall t | t in left && Growing(reg).Ready(t, grown) ensures reg.Ready(t, tags) {
      forall d | d in reg.byTag[t].depends ensures d in tags {
        if d !in tags {
          assert d in grown - tags;
          AbsentDependencyAborts(reg, tags, left, t, d);
          assert false;
        }
      }
    }
  }

  lemma {:induction false} GrowingGetsThrough(reg: Registry, tags: set<Tag>, grown: set<Tag>, left: set<Tag>)
    requires reg.Disjoint() && Ahead(reg, tags, grown, left) && Rounds(reg, tags, left).Migrated?
    ensures Rounds(Growing(reg), grown, left).Migrated?
    ensures forall t :: t in left ==> RoundOf(Growing(reg), grown, left, t) == RoundOf(reg, tags, left, t)
    decreases left
  {
    if left != {} {
      var ready := ReadySet(reg, tags, left);
      SameReady(reg, tags, grown, left);
      AheadStep(reg, tags, grown, left, ready);
      assert left - ready < left;
      GrowingGetsThrough(reg, ApplyRound(reg, tags, ready), ApplyRound(Growing(reg), grown, ready), left - ready);
    }
  }

  /** What is left does not depend on a tag that was taken away. */
  ghost predicate NothingMissed(reg: Registry, tags: set<Tag>, grown: set<Tag>, left: set<Tag>) {
    forall t, d :: t in left && reg.DependsOn(t, d) && d in grown ==> d in tags
  }

  lemma {:induction false} InTimeStep(reg: Registry, tags: set<Tag>, grown: set<Tag>, left: set<Tag>)
    requires reg.Disjoint() && Ahead(reg, tags, grown, left) && left != {}
    requires Rounds(Growing(reg), grown, left).Migrated? && InTime(reg, grown, left)
    requires NothingMissed(reg, tags, grown, left)
    ensures var ready := ReadySet(Growing(reg), grown, left);
            var grown', left' := ApplyRound(Growing(reg), grown, ready), left - ready;
            && ready == ReadySet(reg, tags, left) && ready != {}
            && Rounds(Growing(reg), grown', left').Migrated? && InTime(reg, grown', left')
            && NothingMissed(reg, ApplyRound(reg, tags, ready), grown', left')
  {
    var ready := ReadySet(Growing(reg), grown, left);
    forall t | t in ready ensures reg.Ready(t, tags) {
      forall d | d in reg.byTag[t].depends ensures d in tags {
        assert reg.DependsOn(t, d);
      }
    }
    assert left - ready < left;
    var tags', grown', left' := ApplyRound(reg, tags, ready), ApplyRound(Growing(reg), grown, ready), left - ready;
    forall t, d | t in left' && reg.DependsOn(t, d) && d in grown' ensures d in tags' {
      assert d !in ready * reg.untagSet;
    }
  }

  lemma {:induction false} InTimeGetsThrough(reg: Registry, tags: set<Tag>, grown: set<Tag>, left: set<Tag>)
    requires reg.Disjoint() && Ahead(reg, tags, grown, left)
    requires Rounds(Growing(reg), grown, left).Migrated? && InTime(reg, grown, left)
    requires NothingMissed(reg, tags, grown, left)
    ensures Rounds(reg, tags, left).Migrated?
    decreases left
  {
    if left != {} {
      var ready := ReadySet(Growing(reg), grown, left);
      InTimeStep(reg, tags, grown, left);
      AheadStep(reg, tags, grown, left, ready);
      assert left - ready < left;
      InTimeGetsThrough(reg, ApplyRound(reg, tags, ready), ApplyRound(Growing(reg), grown, ready), left - ready);
    }
  }

  /** Some pending migration depends on a downgraded tag that is not there. */
  ghost predicate DependsOnAbsent(reg: Registry, start: set<Tag>) {
    exists t, d :: t in reg.Pending(start) && reg.DependsOn(t, d) && d in reg.untagSet - start
  }

  /** What the growing run keeps: the tags it started with and the upgrades it has applied. */
  ghost predicate GrowInv(reg: Registry, start: set<Tag>, tags: set<Tag>, left: set<Tag>) {
    left <= reg.Pending(start) && tags == start + (reg.Pending(start) - left) * reg.tagSet
  }

  lemma {:induction false} GrowingResult(reg: Registry, start: set<Tag>, tags: set<Tag>, left: set<Tag>)
    requires reg.Valid() && GrowInv(reg, start, tags, left) && Rounds(Growing(reg), tags, left).Aborted?
    ensures var r := Rounds(Growing(reg), tags, left);
            GrowInv(reg, start, r.tags, r.left) && r.left != {} && ReadySet(reg, r.tags, r.left) == {}
    decreases left
  {
    var ready := ReadySet(reg, tags, left);
    assert ReadySet(Growing(reg), tags, left) == ready;
    if ready != {} {
      assert left - ready < left;
      GrowingResult(reg, start, ApplyRound(Growing(reg), tags, ready), left - ready);
    }
  }

  /** What an abort of the growing run leaves has a knot of missing upgrades, if no absent tag is the reason. */
  lemma {:induction false} GrowingLeavesKnot(reg: Registry, start: set<Tag>)
    requires reg.Valid() && reg.Disjoint() && Audited(reg.byTag) && !DependsOnAbsent(reg, start)
    requires Rounds(Growing(reg), start, reg.Pending(start)).Aborted?
    ensures var left := Rounds(Growing(reg), start, reg.Pending(start)).left;
            Knot(reg, left * reg.tagSet) && left * reg.tagSet <= reg.tagSet - start
  {
    GrowingResult(reg, start, start, reg.Pending(start));
    var r := Rounds(Growing(reg), start, reg.Pending(start));
    var s := r.left * reg.tagSet;
    forall t | t in r.left ensures WaitsFor(reg, t, s) {
      assert t !in ReadySet(reg, r.tags, r.left);
      var d :| d in reg.byTag[t].depends && d !in r.tags;
      assert reg.DependsOn(t, d) && d in reg.byTag;
      assert d in s;
    }
    var t :| t in r.left;
    assert WaitsFor(reg, t, s);
  }

  /** An absent downgraded tag never appears, so the growing run cannot get through. */
  lemma {:induction false} AbsentBlocksGrowing(reg: Registry, tags: set<Tag>, left: set<Tag>, t: Tag, d: Tag)
    requires reg.Disjoint() && left <= reg.byTag.Keys && t in left && reg.DependsOn(t, d)
    requires d in reg.untagSet && d !in tags
    ensures Rounds(Growing(reg), tags, left).Aborted?
    decreases left
  {
    var ready := ReadySet(Growing(reg), tags, left);
    assert t !in ready;
    if ready != {} {
      assert left - ready < left;
      AbsentBlocksGrowing(reg, ApplyRound(Growing(reg), tags, ready), left - ready, t, d);
    }
  }

  lemma {:induction false} GrowingAbortsIff(reg: Registry, start: set<Tag>)
    requires reg.Valid() && reg.Disjoint() && Audited(reg.byTag)
    ensures Rounds(Growing(reg), start, reg.Pending(start)).Aborted? <==>
            (exists c :: Cycle(reg, reg.tagSet - start, c)) || DependsOnAbsent(reg, start)
  {
    var left := reg.Pending(start);
    if DependsOnAbsent(reg, start) {
      var t, d :| t in left && reg.DependsOn(t, d) && d in reg.untagSet - start;
      AbsentBlocksGrowing(reg, start, left, t, d);
    } else if Rounds(Growing(reg), start, left).Aborted? {
      GrowingLeavesKnot(reg, start);
      var c := KnotHasCycle(reg, Rounds(Growing(reg), start, left).left * reg.tagSet);
      assert Cycle(reg, reg.tagSet - start, c);
    } else if c :| Cycle(reg, reg.tagSet - start, c) {
      CycleIsKnot(reg, reg.tagSet - start, c);
      var s := SetOf(c);
      assert Knot(Growing(reg), s) by {
        forall t | t in s ensures WaitsFor(Growing(reg), t, s) {
          assert WaitsFor(reg, t, s);
          var d :| d in s && reg.DependsOn(t, d);
          assert Growing(reg).DependsOn(t, d);
        }
      }
      KnotAborts(Growing(reg), start, left, s);
      assert false;
    }
  }

  /**
   The loop aborts if and only if the missing tags depend on each other in a cycle, or
   a pending migration depends on a downgraded tag that is not there, or when tags only
   grow some downgrader runs in an earlier round than a migration that depends on its tag.
   */
  lemma {:induction false} AbortsIff(reg: Registry, start: set<Tag>)
    requires reg.Valid() && reg.Disjoint() && Audited(reg.byTag)
    ensures Migrate(reg, start).Aborted? <==>
            || (exists c :: Cycle(reg, reg.tagSet - start, c))
            || DependsOnAbsent(reg, start)
            || (Rounds(Growing(reg), start, reg.Pending(start)).Migrated? && !InTime(reg, start, reg.Pending(start)))
  {
    var left := reg.Pending(start);
    GrowingAbortsIff(reg, start);
    if Migrate(reg, start).Migrated? {
      GrowingGetsThrough(reg, start, start, left);
      forall t, d | t in left && d in left * reg.untagSet && reg.DependsOn(t, d)
        ensures RoundOf(Growing(reg), start, left, t) <= RoundOf(Growing(reg), start, left, d)
      {
        DowngraderNotAwaited(reg, start, left, t, d);
      }
    } else if Rounds(Growing(reg), start, left).Migrated? && InTime(reg, start, left) {
      InTimeGetsThrough(reg, start, start, left);
      assert false;
    }
  }

  // ---------------------------------------------------------------- process_file

  /** What a checkpoint file says about its version. */
  datatype Version = CptVer(n: int) | VersionTags(tags: set<Tag>) | NoVersion

  datatype FileOutcome =
    | NothingToDo
    | Written(tags: set<Tag>, log: seq<Tag>)
    | Unresolved(left: set<Tag>)
    | NoVersionInformation
    | UnknownLegacyVersion

  /** The tags of the legacy versions from 2 up to n. */
  ghost predicate LegacyTags(reg: Registry, n: int, tags: set<Tag>) {
    && (forall i :: 2 <= i <= n ==> i in reg.legacy)
    && (forall t :: t in tags <==> exists i :: 2 <= i <= n && i in reg.legacy && reg.legacy[i] == t)
  }

  method ConvertLegacy(reg: Registry, n: int) returns (ok: bool, tags: set<Tag>)
    ensures ok <==> forall i :: 2 <= i <= n ==> i in reg.legacy
    ensures ok ==> LegacyTags(reg, n, tags)
  {
    tags := {};
    var i := 2;
    while i <= n
      invariant 2 <= i && (i <= n + 1 || i == 2) && (forall k :: 2 <= k < i ==> k in reg.legacy)
      invariant forall t :: t in tags <==> exists k :: 2 <= k < i && k in reg.legacy && reg.legacy[k] == t
    {
      if i !in reg.legacy {
        return false, tags;
      }
      tags := tags + {reg.legacy[i]};
      i := i + 1;
    }
    ok := true;
  }

  /** The file's tags before the loop starts. */
  ghost predicate StartsFrom(reg: Registry, v: Version, tags: set<Tag>) {
    match v
    case CptVer(n) => LegacyTags(reg, n, tags)
    case VersionTags(ts) => tags == ts
    case NoVersion => false
  }

  method ProcessFile(reg: Registry, v: Version) returns (r: FileOutcome)
    requires reg.Valid() && reg.Disjoint()
    ensures r == NoVersionInformation <==> v == NoVersion
    ensures r == UnknownLegacyVersion <==> v.CptVer? && exists i :: 2 <= i <= v.n && i !in reg.legacy
    ensures r.Written? ==> exists start :: StartsFrom(reg, v, start) && r.tags == (start + reg.tagSet) - reg.untagSet &&
                             GoodLog(reg, start, {}, r.log)
    ensures r.Unresolved? ==> exists start :: StartsFrom(reg, v, start) && Migrate(reg, start).Aborted? &&
                                r.left == Migrate(reg, start).left
    ensures r == NothingToDo <==> v.VersionTags? && reg.Pending(v.tags) == {}
    ensures r.Written? ==> reg.Pending(r.tags) == {}
  {
    var tags: set<Tag>;
    match v {
      case NoVersion =>
        return NoVersionInformation;
      case VersionTags(ts) =>
        tags := ts;
      case CptVer(n) =>
        var ok;
        ok, tags := ConvertLegacy(reg, n);
        if !ok {
          return UnknownLegacyVersion;
        }
    }
    assert StartsFrom(reg, v, tags);
    var outcome, log := ApplyMigrations(reg, tags);
    if outcome.Aborted? {
      AbortIsPending(reg, tags);
      return Unresolved(outcome.left);
    }
    MigratedTags(reg, tags);
    if v.VersionTags? && log == [] {
      assert SetOf(log) == {};
      return NothingToDo;
    }
    assert log != [] ==> log[0] in SetOf(log);
    SecondRunIsNoop(reg, tags);
    r := Written(outcome.tags, log);
  }

  lemma AbortIsPending(reg: Registry, start: set<Tag>)
    requires reg.Valid() && reg.Disjoint() && Migrate(reg, start).Aborted?
    ensures reg.Pending(start) != {}
  {
  }
}
