/**
 `cpt_upgrader.py`: the registry of upgraders and downgraders, and the loop that
 applies to a checkpoint the migrations it lacks, in rounds.
 */
module CptUpgrader {
  import opened Text

  type Tag = string

  /** An upgrader (or downgrader) script: what it depends on, and what is to depend on it. */
  datatype Script = Script(depends: seq<Tag>, fwdDepends: seq<Tag>, upgrades: bool)

  /** The class attributes of `Upgrader`. */
  datatype Registry = Registry(
    byTag: map<Tag, Script>, tagSet: set<Tag>, untagSet: set<Tag>, legacy: map<int, Tag>)
  {
    /** Every registered tag is in the set of its kind, and there is nothing else in these sets. */
    ghost predicate Valid() {
      && byTag.Keys == tagSet + untagSet
      && (forall t :: t in byTag ==> t in if byTag[t].upgrades then tagSet else untagSet)
      && (forall v :: v in legacy ==> legacy[v] in byTag)
      && (forall v, w :: v in legacy && w in legacy && v != w ==> legacy[v] != legacy[w])
    }

    /** "A tag can only be used once." */
    ghost predicate Disjoint() { tagSet !! untagSet }

    predicate Ready(t: Tag, tags: set<Tag>)
      requires t in byTag
    {
      forall d :: d in byTag[t].depends ==> d in tags
    }

    ghost predicate DependsOn(t: Tag, d: Tag) {
      t in byTag && d in byTag[t].depends
    }

    /** The migrations a checkpoint with these tags is due for. */
    function Pending(tags: set<Tag>): set<Tag> {
      (tagSet - tags) + (untagSet * tags)
    }
  }

  // ------------------------------------------------------------- load_all

  datatype LoadError = LegacyGap | UnknownForward(tag: Tag) | UnknownDependency(tag: Tag)
  datatype LoadResult = Loaded | LoadFailed(error: LoadError)

  /** All dependencies are on registered tags. */
  ghost predicate Audited(m: map<Tag, Script>) {
    forall t, d :: t in m && d in m[t].depends ==> d in m
  }

  /** The tag names only registered tags, forward or not. */
  ghost predicate AllKnown(m: map<Tag, Script>, t: Tag)
    requires t in m
  {
    (forall d :: d in m[t].depends ==> d in m) && (forall d :: d in m[t].fwdDepends ==> d in m)
  }

  /** The edges of `m`, with the forward ones turned round. */
  ghost predicate Edge(m: map<Tag, Script>, t: Tag, d: Tag) {
    t in m && (d in m[t].depends || (d in m && t in m[d].fwdDepends))
  }

  /** `m` and `n` differ in the dependencies only. */
  ghost predicate SameScripts(m: map<Tag, Script>, n: map<Tag, Script>) {
    m.Keys == n.Keys && forall t :: t in m ==> m[t].(depends := []) == n[t].(depends := [])
  }

  /** Legacy version v depends on version v - 1, and on nothing else. */
  ghost predicate Linked(n: map<Tag, Script>, legacy: map<int, Tag>, v: int) {
    v in legacy && v - 1 in legacy && legacy[v] in n && n[legacy[v]].depends == [legacy[v - 1]]
  }

  /** The versions from 3 to top - 1 form a chain; all else is as in `m`. */
  ghost predicate Chained(m: map<Tag, Script>, n: map<Tag, Script>, legacy: map<int, Tag>, top: int) {
    && m.Keys == n.Keys
    && (forall v :: 3 <= v < top ==> Linked(n, legacy, v))
    && (forall t :: t in n && n[t] != m[t] ==> exists v :: 3 <= v < top && Linked(n, legacy, v) && legacy[v] == t)
  }

  lemma ChainStep(m: map<Tag, Script>, n: map<Tag, Script>, n': map<Tag, Script>, legacy: map<int, Tag>, i: int)
    requires Chained(m, n, legacy, i) && i >= 3 && i in legacy && i - 1 in legacy && legacy[i] in n
    requires forall v, w :: v in legacy && w in legacy && v != w ==> legacy[v] != legacy[w]
    requires n' == n[legacy[i] := n[legacy[i]].(depends := [legacy[i - 1]])]
    requires SameScripts(n, m)
    ensures Chained(m, n', legacy, i + 1) && SameScripts(n', m)
  {
    forall v | 3 <= v < i + 1 ensures Linked(n', legacy, v) {
      assert v < i ==> Linked(n, legacy, v);
    }
    forall t | t in n' && n'[t] != m[t]
      ensures exists v :: 3 <= v < i + 1 && Linked(n', legacy, v) && legacy[v] == t
    {
      if t == legacy[i] {
        assert Linked(n', legacy, i);
      } else {
        assert n[t] != m[t];
        var v :| 3 <= v < i && Linked(n, legacy, v) && legacy[v] == t;
        assert Linked(n', legacy, v);
      }
    }
  }

  /** Lines 166-170: version i of the legacy numbering depends on version i - 1, up to the first gap. */
  method ChainLegacy(scripts: map<Tag, Script>, legacy: map<int, Tag>)
    returns (ok: bool, m: map<Tag, Script>, top: int)
    requires forall v :: v in legacy ==> legacy[v] in scripts
    requires forall v, w :: v in legacy && w in legacy && v != w ==> legacy[v] != legacy[w]
    ensures SameScripts(m, scripts)
    ensures ok <==> (3 in legacy ==> 2 in legacy)
    ensures ok ==> top >= 3 && top !in legacy && Chained(scripts, m, legacy, top)
  {
    m, top := scripts, 3;
    ghost var ahead := set v | v in legacy && v >= 3;
    while top in legacy
      invariant 3 <= top && (top > 3 ==> 2 in legacy && 3 in legacy && top - 1 in legacy)
      invariant SameScripts(m, scripts)
      invariant Chained(scripts, m, legacy, top)
      invariant ahead == set v | v in legacy && v >= top
      decreases ahead
    {
      if top - 1 !in legacy {
        return false, m, top;
      }
      var t := legacy[top];
      var n := m[t := m[t].(depends := [legacy[top - 1]])];
      ChainStep(scripts, m, n, legacy, top);
      m := n;
      ahead := ahead - {top};
      top := top + 1;
    }
    ok := true;
  }

  /** Lines 174-179: the tag becomes a dependency of all it is a forward dependency of. */
  method AddForward(scripts: map<Tag, Script>, tag: Tag) returns (ok: bool, m: map<Tag, Script>)
    requires tag in scripts
    ensures SameScripts(m, scripts)
    ensures ok <==> forall f :: f in scripts[tag].fwdDepends ==> f in scripts
    ensures ok ==> forall t, d :: t in m ==>
              (d in m[t].depends <==> d in scripts[t].depends || (d == tag && t in scripts[tag].fwdDepends))
  {
    m := scripts;
    var fwd := scripts[tag].fwdDepends;
    for i := 0 to |fwd|
      invariant SameScripts(m, scripts)
      invariant forall k :: 0 <= k < i ==> fwd[k] in m
      invariant forall t, d :: t in m ==>
                  (d in m[t].depends <==> d in scripts[t].depends || (d == tag && t in fwd[..i]))
    {
      if fwd[i] !in m {
        return false, m;
      }
      m := m[fwd[i] := m[fwd[i]].(depends := m[fwd[i]].depends + [tag])];
    }
    return true, m;
  }

  /** Lines 180-184. */
  method Audit(scripts: map<Tag, Script>, tag: Tag) returns (ok: bool)
    requires tag in scripts
    ensures ok <==> forall d :: d in scripts[tag].depends ==> d in scripts
  {
    var depends := scripts[tag].depends;
    for i := 0 to |depends|
      invariant forall k :: 0 <= k < i ==> depends[k] in scripts
    {
      if depends[i] !in scripts {
        return false;
      }
    }
    return true;
  }

  /** The forward dependencies of all tags but those left have been turned round. */
  ghost predicate ResolvedSoFar(scripts: map<Tag, Script>, m: map<Tag, Script>, left: set<Tag>) {
    && m.Keys == scripts.Keys
    && forall t, d :: t in m ==>
         (d in m[t].depends <==>
          d in scripts[t].depends || (d in scripts && d !in left && t in scripts[d].fwdDepends))
  }

  lemma ResolveStep(scripts: map<Tag, Script>, m: map<Tag, Script>, n: map<Tag, Script>, left: set<Tag>, tag: Tag)
    requires ResolvedSoFar(scripts, m, left) && tag in left && tag in scripts && n.Keys == m.Keys
    requires forall t, d :: t in n ==>
               (d in n[t].depends <==> d in m[t].depends || (d == tag && t in scripts[tag].fwdDepends))
    ensures ResolvedSoFar(scripts, n, left - {tag})
  {
  }

  lemma ResolvedEdges(scripts: map<Tag, Script>, m: map<Tag, Script>)
    requires ResolvedSoFar(scripts, m, {})
    ensures forall t, d :: t in m ==> (d in m[t].depends <==> Edge(scripts, t, d))
  {
    forall t, d | t in m ensures d in m[t].depends <==> Edge(scripts, t, d) {
    }
  }

  /** Lines 172-184, whatever the order in which the dictionary is walked. */
  method Resolve(scripts: map<Tag, Script>) returns (r: LoadResult, m: map<Tag, Script>)
    ensures SameScripts(m, scripts)
    ensures r.Loaded? <==> forall t :: t in scripts ==> AllKnown(scripts, t)
    ensures r.Loaded? ==> Audited(m) && forall t, d :: t in m ==> (d in m[t].depends <==> Edge(scripts, t, d))
    ensures r != LoadFailed(LegacyGap)
  {
    m := scripts;
    var left := scripts.Keys;
    while left != {}
      invariant left <= scripts.Keys
      invariant SameScripts(m, scripts)
      invariant ResolvedSoFar(scripts, m, left)
      invariant forall t :: t in scripts && t !in left ==> AllKnown(scripts, t)
      decreases left
    {
      var tag :| tag in left;
      assert m[tag].(depends := []) == scripts[tag].(depends := []);
      var known, n := AddForward(m, tag);
      if !known {
        return LoadFailed(UnknownForward(tag)), m;
      }
      ResolveStep(scripts, m, n, left, tag);
      left := left - {tag};
      m := n;
      var fine := Audit(m, tag);
      if !fine {
        return LoadFailed(UnknownDependency(tag)), m;
      }
    }
    ResolvedEdges(scripts, m);
    r := Loaded;
  }

  /** No version but v is that of the tag. */
  ghost predicate OnlyVersion(legacy: map<int, Tag>, tag: Tag, v: int) {
    forall w :: w in legacy && w != v ==> legacy[w] != tag
  }

  /** What loading makes of the scripts, legacy versions chained and forward dependencies still to be turned round. */
  ghost predicate LegacyChained(scripts: map<Tag, Script>, m: map<Tag, Script>, legacy: map<int, Tag>) {
    SameScripts(m, scripts) && exists top: int :: top >= 3 && top !in legacy && Chained(scripts, m, legacy, top)
  }

  /** Loading succeeds exactly when all named tags exist, and then turns the forward dependencies round. */
  ghost predicate LoadsTo(m: map<Tag, Script>, n: map<Tag, Script>, ok: bool) {
    && (ok <==> forall t :: t in m ==> AllKnown(m, t))
    && (ok ==> n.Keys == m.Keys && forall t, d :: t in n ==> (d in n[t].depends <==> Edge(m, t, d)))
  }

  class Upgraders {
    var reg: Registry

    constructor ()
      ensures reg == Registry(map[], {}, {}, map[]) && reg.Valid() && reg.Disjoint()
    {
      reg := Registry(map[], {}, {}, map[]);
    }

    /**
     The end of `Upgrader.__init__`: a script enters the registry under its tag, and
     silently replaces one that is there. The registry stays valid unless the tag then
     has two legacy versions, and a tag has one kind unless it changed it.
     */
    method Register(tag: Tag, script: Script, legacyVersion: Option<int>)
      requires reg.Valid()
      modifies this
      ensures reg.byTag == old(reg.byTag)[tag := script]
      ensures reg.tagSet == if script.upgrades then old(reg.tagSet) + {tag} else old(reg.tagSet)
      ensures reg.untagSet == if script.upgrades then old(reg.untagSet) else old(reg.untagSet) + {tag}
      ensures reg.legacy == if legacyVersion.None? then old(reg.legacy) else old(reg.legacy)[legacyVersion.value := tag]
      ensures reg.Valid() <==> legacyVersion.None? || OnlyVersion(old(reg.legacy), tag, legacyVersion.value)
      ensures tag !in old(reg.byTag) ==> reg.Valid()
      ensures reg.Disjoint() <==>
              old(reg.Disjoint()) && tag !in if script.upgrades then old(reg.untagSet) else old(reg.tagSet)
    {
      ghost var was := reg;
      if legacyVersion.Some? {
        reg := reg.(legacy := reg.legacy[legacyVersion.value := tag]);
      }
      if script.upgrades {
        reg := reg.(byTag := reg.byTag[tag := script], tagSet := reg.tagSet + {tag});
      } else {
        reg := reg.(byTag := reg.byTag[tag := script], untagSet := reg.untagSet + {tag});
      }
      if legacyVersion.Some? && !OnlyVersion(was.legacy, tag, legacyVersion.value) {
        ghost var w :| w in was.legacy && w != legacyVersion.value && was.legacy[w] == tag;
        assert reg.legacy[w] == reg.legacy[legacyVersion.value];
      }
    }

    /**
     What loading leaves behind: the legacy versions are chained, every forward
     dependency has become a dependency, and all dependencies are registered.
     */
    method LoadAll() returns (r: LoadResult)
      requires reg.Valid()
      modifies this
      ensures reg.Valid() && reg == old(reg).(byTag := reg.byTag) && SameScripts(reg.byTag, old(reg.byTag))
      ensures r.Loaded? ==> Audited(reg.byTag)
      ensures r == LoadFailed(LegacyGap) <==> 3 in reg.legacy && 2 !in reg.legacy
      ensures r != LoadFailed(LegacyGap) ==>
                exists m :: LegacyChained(old(reg.byTag), m, reg.legacy) && LoadsTo(m, reg.byTag, r.Loaded?)
    {
      var chained, m, top := ChainLegacy(reg.byTag, reg.legacy);
      if !chained {
        reg := reg.(byTag := m);
        SameScriptsKinds(m, old(reg.byTag));
        return LoadFailed(LegacyGap);
      }
      assert LegacyChained(reg.byTag, m, reg.legacy);
      var n;
      r, n := Resolve(m);
      SameScriptsKinds(m, old(reg.byTag));
      SameScriptsKinds(n, m);
      reg := reg.(byTag := n);
    }
  }

  lemma SameScriptsKinds(m: map<Tag, Script>, n: map<Tag, Script>)
    requires SameScripts(m, n)
    ensures forall t :: t in m ==> t in n && m[t].upgrades == n[t].upgrades && m[t].fwdDepends == n[t].fwdDepends
  {
    forall t | t in m ensures t in n && m[t].upgrades == n[t].upgrades && m[t].fwdDepends == n[t].fwdDepends {
      assert m[t].(depends := []) == n[t].(depends := []);
    }
  }
}
