/**
 `memtest.py`: the sanity checks on the tree specification, the count of testers
 made from it, and the recursion that builds the tree of subsystems.
 */
module MemTest {

  const BLOCK_SIZE := 64

  /** A subsystem of the tree: its level and index make up its name. */
  datatype Subsystem = Subsystem(level: nat, index: nat, testers: nat)

  // ------------------------------------------------------------------- counting

  /** The product of the first k numbers. */
  function Fan(caches: seq<nat>, k: nat): nat
    requires k <= |caches|
  {
    if k == 0 then 1 else caches[0] * Fan(caches[1..], k - 1)
  }

  lemma MulAssociative(a: nat, b: nat, c: nat)
    ensures a * (b * c) == (a * b) * c
  {
  }

  lemma {:induction false} FanLast(caches: seq<nat>, k: nat)
    requires k < |caches|
    ensures Fan(caches, k + 1) == Fan(caches, k) * caches[k]
  {
    var tail := caches[1..];
    if k == 0 {
      assert Fan(tail, 0) == 1 && Fan(caches, 0) == 1;
    } else {
      FanLast(tail, k - 1);
      assert tail[k - 1] == caches[k];
      MulAssociative(caches[0], Fan(tail, k - 1), caches[k]);
    }
  }

  /** The testers of the first n levels from memory, where each subsystem fans out to those above it. */
  function TreeTesters(caches: seq<nat>, testers: seq<nat>, n: nat): nat
    requires n <= |testers| && n <= |caches| + 1
  {
    if n == 0 then 0 else TreeTesters(caches, testers, n - 1) + testers[n - 1] * Fan(caches, n - 1)
  }

  method NumTesters(cachespec: seq<nat>, testerspec: seq<nat>) returns (total: nat)
    ensures total == TreeTesters(cachespec, testerspec,
                                 if |testerspec| <= |cachespec| + 1 then |testerspec| else |cachespec| + 1)
  {
    var multiplier: seq<nat> := [1];
    for i := 0 to |cachespec|
      invariant |multiplier| == i + 1 && forall k :: 0 <= k <= i ==> multiplier[k] == Fan(cachespec, k)
    {
      FanLast(cachespec, i);
      multiplier := multiplier + [multiplier[i] * cachespec[i]];
    }
    total := 0;
    for i := 0 to if |testerspec| <= |multiplier| then |testerspec| else |multiplier|
      invariant total == TreeTesters(cachespec, testerspec, i)
    {
      total := total + testerspec[i] * multiplier[i];
    }
  }

  /** What lines 152-177 let through. */
  ghost predicate Accepted(cachespec: seq<int>, testerspec: seq<int>) {
    && |cachespec| >= 1 && |testerspec| == |cachespec| + 1
    && testerspec[|testerspec| - 1] != 0
    && (forall i :: 0 <= i < |testerspec| ==> testerspec[i] >= 0)
    && (forall i :: 0 <= i < |cachespec| ==> cachespec[i] >= 1)
    && TreeTesters(AsNats(cachespec), AsNats(testerspec), |testerspec|) <= BLOCK_SIZE
  }

  function AsNats(s: seq<int>): (r: seq<nat>)
    ensures |r| == |s|
    ensures forall i :: 0 <= i < |s| && s[i] >= 0 ==> r[i] == s[i]
  {
    seq(|s|, i requires 0 <= i < |s| => if s[i] >= 0 then s[i] else 0)
  }

  method CheckSpec(cachespec: seq<int>, testerspec: seq<int>) returns (ok: bool)
    ensures ok <==> Accepted(cachespec, testerspec)
  {
    if |cachespec| < 1 || |cachespec| != |testerspec| - 1 || testerspec[|testerspec| - 1] == 0 {
      return false;
    }
    for i := 0 to |testerspec|
      invariant forall k :: 0 <= k < i ==> testerspec[k] >= 0
    {
      if testerspec[i] < 0 {
        return false;
      }
    }
    for i := 0 to |cachespec|
      invariant forall k :: 0 <= k < i ==> cachespec[k] >= 1
    {
      if cachespec[i] < 1 {
        return false;
      }
    }
    var n := NumTesters(AsNats(cachespec), AsNats(testerspec));
    ok := n <= BLOCK_SIZE;
  }

  /** Lines 190-214: the size of the cache prototype of each level, the nearest to memory first. */
  method Prototypes(cachespec: seq<nat>, l1Size: nat) returns (sizes: seq<nat>)
    requires |cachespec| >= 1
    ensures |sizes| == |cachespec| && sizes[|sizes| - 1] == l1Size
    ensures forall k :: 0 <= k < |sizes| - 1 ==> sizes[k] == sizes[k + 1] * cachespec[|sizes| - 2 - k]
  {
    sizes := [l1Size];
    for i := 0 to |cachespec| - 1
      invariant |sizes| == i + 1 && sizes[i] == l1Size
      invariant forall k :: 0 <= k < i ==> sizes[k] == sizes[k + 1] * cachespec[i - 1 - k]
    {
      sizes := [sizes[0] * cachespec[i]] + sizes;
    }
  }

  // -------------------------------------------------------------- what is created

  /** The indices of the subsystems of one level, in the order of their creation. */
  function OfLevel(created: seq<Subsystem>, level: nat): seq<nat> {
    if created == [] then []
    else
      var s := created[|created| - 1];
      OfLevel(created[..|created| - 1], level) + if s.level == level then [s.index] else []
  }

  function TotalTesters(created: seq<Subsystem>): nat {
    if created == [] then 0
    else TotalTesters(created[..|created| - 1]) + created[|created| - 1].testers
  }

  /** 0, 1, 2, ... */
  function Upto(n: nat): seq<nat> {
    seq(n, i => i)
  }

  /** The testers of levels 0 to n - 1 when level l has next[l] subsystems. */
  function LevelTesters(next: seq<nat>, testerspec: seq<nat>, n: nat): nat
    requires n <= |next| == |testerspec|
  {
    if n == 0 then 0 else LevelTesters(next, testerspec, n - 1) + next[n - 1] * testerspec[|next| - n]
  }

  lemma {:induction false} LevelTestersStep(next: seq<nat>, testerspec: seq<nat>, n: nat, level: nat)
    requires n <= |next| == |testerspec| && level < |next|
    ensures LevelTesters(next[level := next[level] + 1], testerspec, n) ==
            LevelTesters(next, testerspec, n) + if level < n then testerspec[|next| - 1 - level] else 0
  {
    if n > 0 {
      LevelTestersStep(next, testerspec, n - 1, level);
      if level == n - 1 {
        var t := testerspec[|next| - n];
        assert (next[level] + 1) * t == next[level] * t + t;
      }
    }
  }

  /** On every level the subsystems are numbered without gaps in the order of their creation. */
  ghost predicate Numbered(created: seq<Subsystem>, next: seq<nat>) {
    forall l: nat :: l < |next| ==> OfLevel(created, l) == Upto(next[l])
  }

  lemma {:induction false} NumberedStep(created: seq<Subsystem>, next: seq<nat>, s: Subsystem)
    requires Numbered(created, next) && s.level < |next| && s.index == next[s.level]
    ensures Numbered(created + [s], next[s.level := next[s.level] + 1])
    ensures TotalTesters(created + [s]) == TotalTesters(created) + s.testers
  {
    var created', next' := created + [s], next[s.level := next[s.level] + 1];
    assert created'[..|created|] == created;
    forall l: nat | l < |next'| ensures OfLevel(created', l) == Upto(next'[l]) {
      assert OfLevel(created, l) == Upto(next[l]);
      assert Upto(next[l] + 1) == Upto(next[l]) + [next[l]];
    }
  }

  /** The subsystems are numbered and hold the testers the specification gives to their levels. */
  ghost predicate Consistent(created: seq<Subsystem>, next: seq<nat>, testerspec: seq<nat>) {
    && |next| == |testerspec| && Numbered(created, next)
    && TotalTesters(created) == LevelTesters(next, testerspec, |testerspec|)
  }

  lemma ConsistentStep(created: seq<Subsystem>, next: seq<nat>, testerspec: seq<nat>, s: Subsystem)
    requires Consistent(created, next, testerspec) && s.level < |next|
    requires s.index == next[s.level] && s.testers == testerspec[|next| - 1 - s.level]
    ensures Consistent(created + [s], next[s.level := next[s.level] + 1], testerspec)
  {
    LevelTestersStep(next, testerspec, |testerspec|, s.level);
    NumberedStep(created, next, s);
  }

  /** A whole subtree has been added: on level l as many subsystems as the caches below fan out to. */
  ghost predicate Counted(old': seq<nat>, now: seq<nat>, ncaches: seq<nat>) {
    |now| == |old'| > |ncaches| && forall l: nat :: l < |now| ==>
      now[l] == old'[l] + if l <= |ncaches| then Fan(ncaches, |ncaches| - l) else 0
  }

  /** So many subtrees with these fan-outs have been added. */
  ghost predicate Grown(start: seq<nat>, now: seq<nat>, ncaches: seq<nat>, count: nat) {
    |now| == |start| > |ncaches| && forall l: nat :: l < |now| ==>
      now[l] == start[l] + if l <= |ncaches| then count * Fan(ncaches, |ncaches| - l) else 0
  }

  lemma GrownStart(start: seq<nat>, ncaches: seq<nat>)
    requires |start| > |ncaches|
    ensures Grown(start, start, ncaches, 0)
  {
  }

  lemma CountedLeaf(old': seq<nat>, now: seq<nat>)
    requires |old'| > 0 && now == old'[0 := old'[0] + 1]
    ensures Counted(old', now, [])
  {
    assert Fan([], 0) == 1;
  }

  lemma GrownStep(start: seq<nat>, before: seq<nat>, now: seq<nat>, ncaches: seq<nat>, count: nat)
    requires Grown(start, before, ncaches, count) && Counted(before, now, ncaches)
    ensures Grown(start, now, ncaches, count + 1)
  {
    forall l: nat | l < |now|
      ensures now[l] == start[l] + if l <= |ncaches| then (count + 1) * Fan(ncaches, |ncaches| - l) else 0
    {
      if l <= |ncaches| {
        var f := Fan(ncaches, |ncaches| - l);
        assert (count + 1) * f == count * f + f;
      }
    }
  }

  lemma GrownEnds(old': seq<nat>, start: seq<nat>, now: seq<nat>, ncaches: seq<nat>)
    requires ncaches != [] && |old'| > |ncaches| && start == old'[|ncaches| := old'[|ncaches|] + 1]
    requires Grown(start, now, ncaches[1..], ncaches[0])
    ensures Counted(old', now, ncaches)
  {
    forall l: nat | l < |now|
      ensures now[l] == old'[l] + if l <= |ncaches| then Fan(ncaches, |ncaches| - l) else 0
    {
      assert l < |ncaches| ==> Fan(ncaches, |ncaches| - l) == ncaches[0] * Fan(ncaches[1..], |ncaches| - 1 - l);
    }
  }

  class Builder {
    const cachespec: seq<nat>
    const testerspec: seq<nat>
    var nextSubsysIndex: seq<nat>
    var created: seq<Subsystem>

    ghost predicate Valid()
      reads this
    {
      |testerspec| == |cachespec| + 1 && Consistent(created, nextSubsysIndex, testerspec)
    }

    constructor (cachespec: seq<nat>, testerspec: seq<nat>)
      requires |testerspec| == |cachespec| + 1
      ensures Valid() && this.cachespec == cachespec && this.testerspec == testerspec
      ensures nextSubsysIndex == seq(|testerspec|, _ => 0)
    {
      this.cachespec, this.testerspec := cachespec, testerspec;
      nextSubsysIndex, created := seq(|testerspec|, _ => 0), [];
      new;
      NoTesters(nextSubsysIndex, testerspec, |testerspec|);
    }

    /** Lines 239-260: the next subsystem of a level. */
    method NewSubsystem(level: nat) returns (testers: nat)
      requires Valid() && level <= |cachespec|
      modifies this
      ensures Valid() && testers == testerspec[|cachespec| - level]
      ensures nextSubsysIndex == old(nextSubsysIndex)[level := old(nextSubsysIndex)[level] + 1]
    {
      var index := nextSubsysIndex[level];
      testers := testerspec[|cachespec| - level];
      var s := Subsystem(level, index, testers);
      var next, all := nextSubsysIndex[level := index + 1], created + [s];
      ConsistentStep(created, nextSubsysIndex, testerspec, s);
      nextSubsysIndex, created := next, all;
    }

    /**
     The subtree above a cache; `ok` is false where the script gives up for want of a
     cache below (line 286) or takes the first of no testers (line 297).
     */
    method MakeCacheLevel(ncaches: seq<nat>, prototypes: seq<nat>, level: nat, hasNextCache: bool) returns (ok: bool)
      requires Valid() && level <= |cachespec| && |ncaches| == |prototypes| == level
      modifies this
      ensures Valid()
      ensures testerspec[|cachespec|] > 0 && (level == 0 ==> hasNextCache) ==> ok
      ensures ok ==> Counted(old(nextSubsysIndex), nextSubsysIndex, ncaches)
      decreases level, 0
    {
      var ntesters := NewSubsystem(level);
      if level != 0 {
        var proto := prototypes[0];
        ghost var start := nextSubsysIndex;
        ok := MakeSubtrees(ncaches[0], ncaches[1..], prototypes[1..], level - 1);
        if ok {
          GrownEnds(old(nextSubsysIndex), start, nextSubsysIndex, ncaches);
        }
      } else {
        CountedLeaf(old(nextSubsysIndex), nextSubsysIndex);
        ok := hasNextCache && ntesters != 0;
      }
    }

    /** Lines 277-279: a subtree for each cache of a level. */
    method MakeSubtrees(count: nat, ncaches: seq<nat>, prototypes: seq<nat>, level: nat) returns (ok: bool)
      requires Valid() && level < |cachespec| && |ncaches| == |prototypes| == level
      modifies this
      ensures Valid() && (testerspec[|cachespec|] > 0 ==> ok)
      ensures ok ==> Grown(old(nextSubsysIndex), nextSubsysIndex, ncaches, count)
      decreases level, 1
    {
      ghost var start := nextSubsysIndex;
      GrownStart(start, ncaches);
      for i := 0 to count
        invariant Valid() && Grown(start, nextSubsysIndex, ncaches, i)
      {
        ghost var before := nextSubsysIndex;
        ok := MakeCacheLevel(ncaches, prototypes, level, true);
        if !ok {
          return;
        }
        GrownStep(start, before, nextSubsysIndex, ncaches, i);
      }
      ok := true;
    }

    /** Line 300: the whole tree of a specification that passed the checks. */
    method BuildTree(prototypes: seq<nat>)
      requires Valid() && |prototypes| == |cachespec| >= 1 && testerspec[|cachespec|] > 0
      requires nextSubsysIndex == seq(|testerspec|, _ => 0)
      modifies this
      ensures Valid()
      ensures forall l: nat :: l <= |cachespec| ==> OfLevel(created, l) == Upto(Fan(cachespec, |cachespec| - l))
      ensures TotalTesters(created) == TreeTesters(cachespec, testerspec, |testerspec|)
    {
      var ok := MakeCacheLevel(cachespec, prototypes, |cachespec|, false);
      assert ok;
      LevelTestersSplit(cachespec, testerspec, nextSubsysIndex, |testerspec|);
    }
  }

  /** The first n levels from the top are the last n from memory. */
  lemma {:induction false} LevelTestersSplit(caches: seq<nat>, testers: seq<nat>, next: seq<nat>, n: nat)
    requires |testers| == |caches| + 1 == |next| && n <= |testers|
    requires forall l: nat :: l <= |caches| ==> next[l] == Fan(caches, |caches| - l)
    ensures LevelTesters(next, testers, n) + TreeTesters(caches, testers, |testers| - n) ==
            TreeTesters(caches, testers, |testers|)
  {
    if n > 0 {
      LevelTestersSplit(caches, testers, next, n - 1);
      var j := |testers| - n;
      assert next[n - 1] == Fan(caches, j);
      assert next[n - 1] * testers[j] == testers[j] * Fan(caches, j);
    }
  }

  lemma {:induction false} OfLevelPrefix(created: seq<Subsystem>, k: nat, level: nat)
    requires k <= |created|
    ensures OfLevel(created[..k], level) <= OfLevel(created, level)
  {
    if k < |created| {
      var n := |created| - 1;
      assert created[..n][..k] == created[..k];
      OfLevelPrefix(created[..n], k, level);
    } else {
      assert created[..k] == created;
    }
  }

  /** The place of a subsystem among those of its level. */
  lemma {:induction false} OfLevelPlace(created: seq<Subsystem>, i: nat)
    requires i < |created|
    ensures var all, p := OfLevel(created, created[i].level), |OfLevel(created[..i], created[i].level)|;
            p < |all| && all[p] == created[i].index
  {
    assert created[..i + 1][..i] == created[..i];
    OfLevelPrefix(created, i + 1, created[i].level);
  }

  /** Where the subsystems are numbered, no two have the same name. */
  lemma NamesUnique(created: seq<Subsystem>, next: seq<nat>, i: nat, j: nat)
    requires Numbered(created, next) && i < j < |created| && created[i].level < |next|
    ensures created[i].level != created[j].level || created[i].index != created[j].index
  {
    var level := created[i].level;
    if created[j].level == level {
      OfLevelPlace(created, i);
      OfLevelPlace(created, j);
      assert created[..j][..i + 1] == created[..i + 1] && created[..i + 1][..i] == created[..i];
      OfLevelPrefix(created[..j], i + 1, level);
      assert |OfLevel(created[..i], level)| < |OfLevel(created[..j], level)|;
    }
  }

  lemma {:induction false} NoTesters(next: seq<nat>, testerspec: seq<nat>, n: nat)
    requires n <= |next| == |testerspec| && forall l :: 0 <= l < |next| ==> next[l] == 0
    ensures LevelTesters(next, testerspec, n) == 0
  {
    if n > 0 {
      NoTesters(next, testerspec, n - 1);
    }
  }
}
