/**
 What the greedy pass of `bind_ports` achieves: when it succeeds the rebuilt
 wiring is exactly the recorded one, and it succeeds exactly when every
 connection can be taken in one of its two directions so that the sorted order
 meets the slots of each port in index order.
 */
module PortBinding {
  import opened Sets
  import opened Sorting
  import opened Strings
  import opened PortOrder
  import opened PortBinder

  // ------------------------------------------------------- what the pass keeps

  ghost predicate Bound(made: seq<Connection>, p: Port) {
    exists c :: c in made && c.Uses(p)
  }

  /** Slots bound so far are exactly those below their port's counter. */
  ghost predicate CountersFit(st: State) {
    forall p: Port :: Bound(st.made, p) <==> p.key in st.counts && p.index < st.counts[p.key]
  }

  /** No slot is used by two of the connections made. */
  ghost predicate SlotsDistinct(made: seq<Connection>) {
    forall a, b, p :: 0 <= a < b < |made| && made[a].Uses(p) ==> !made[b].Uses(p)
  }

  /** When a slot is bound, the lower slots of its port are bound already. */
  ghost predicate SlotsAscend(made: seq<Connection>) {
    forall b, p: Port, i: nat :: 0 <= b < |made| && made[b].Uses(p) && i < p.index ==> Bound(made[..b], Port(p.key, i))
  }

  ghost predicate PassInv(st: State) {
    CountersFit(st) && SlotsDistinct(st.made) && SlotsAscend(st.made)
  }

  ghost predicate Loopless(s: seq<Connection>) {
    forall c :: c in s ==> c.from != c.to
  }

  lemma BoundExtend(made: seq<Connection>, c: Connection, p: Port)
    ensures Bound(made + [c], p) <==> Bound(made, p) || c.Uses(p)
  {
    var m := made + [c];
    if Bound(m, p) {
      var d :| d in m && d.Uses(p);
      assert d in made || d == c;
    }
    if Bound(made, p) {
      var d :| d in made && d.Uses(p);
      assert d in m;
    }
    assert c in m;
  }

  lemma VisitKeepsCounters(st: State, c: Connection)
    requires CountersFit(st) && c.from.key != c.to.key
    requires c.from.key in st.counts && c.to.key in st.counts
    requires HasCorrectIndex(st.counts, c.from) && HasCorrectIndex(st.counts, c.to)
    ensures CountersFit(Visit(st, c).value)
  {
    var st' := Visit(st, c).value;
    forall p: Port ensures Bound(st'.made, p) <==> p.key in st'.counts && p.index < st'.counts[p.key] {
      BoundExtend(st.made, c, p);
      assert Bound(st.made, p) <==> p.key in st.counts && p.index < st.counts[p.key];
    }
  }

  lemma ExtendKeepsDistinct(made: seq<Connection>, c: Connection)
    requires SlotsDistinct(made) && !Bound(made, c.from) && !Bound(made, c.to)
    ensures SlotsDistinct(made + [c])
  {
    var m := made + [c];
    forall a, b, p | 0 <= a < b < |m| && m[a].Uses(p) ensures !m[b].Uses(p) {
      if b == |made| {
        assert made[a] in made;
      }
    }
  }

  lemma ExtendKeepsAscending(made: seq<Connection>, c: Connection)
    requires SlotsAscend(made)
    requires forall p: Port, i: nat :: c.Uses(p) && i < p.index ==> Bound(made, Port(p.key, i))
    ensures SlotsAscend(made + [c])
  {
    var m := made + [c];
    forall b, p: Port, i: nat | 0 <= b < |m| && m[b].Uses(p) && i < p.index
      ensures Bound(m[..b], Port(p.key, i))
    {
      assert m[..b] == made[..b];
      assert b == |made| ==> made[..b] == made;
    }
  }

  lemma VisitKeepsInv(st: State, c: Connection)
    requires PassInv(st) && c.from != c.to && Visit(st, c).Ok?
    ensures PassInv(Visit(st, c).value)
  {
    if Visit(st, c).value != st {
      VisitKeepsCounters(st, c);
      ExtendKeepsDistinct(st.made, c);
      ExtendKeepsAscending(st.made, c);
    }
  }

  lemma {:induction false} PassKeepsInv(s: seq<Connection>, start: State)
    requires PassInv(start) && Loopless(s) && Pass(s, start).Ok?
    ensures PassInv(Pass(s, start).value)
  {
    if s != [] {
      PassKeepsInv(s[..|s| - 1], start);
      VisitKeepsInv(Pass(s[..|s| - 1], start).value, s[|s| - 1]);
    }
  }

  /** The connections made are taken from the list, in its order. */
  lemma {:induction false} PassSelects(s: seq<Connection>, start: State)
    requires start.made == [] && Sorted(s, ConnectionLe) && Pass(s, start).Ok?
    ensures forall c :: c in Pass(s, start).value.made ==> c in s
    ensures Sorted(Pass(s, start).value.made, ConnectionLe)
  {
    if s != [] {
      var n := |s| - 1;
      PassSelects(s[..n], start);
      var made, made' := Pass(s[..n], start).value.made, Pass(s, start).value.made;
      forall i, j | 0 <= i < j < |made'| ensures ConnectionLe(made'[i], made'[j]) {
        if j == |made| {
          assert made[i] in s[..n];
        }
      }
    }
  }

  // -------------------------------------------------------- the rebuilt wiring

  ghost predicate Wired(w: Wiring, p: Port, q: Port) {
    p.key in w && p.index < |w[p.key]| && w[p.key][p.index] == q
  }

  /** Every slot whose peer the wiring knows, with that peer. */
  ghost function Entries(w: Wiring): iset<Connection> {
    iset p: Port, q: Port | Wired(w, p, q) :: Connection(p, q)
  }

  ghost predicate Matches(st: State, w: Wiring) {
    && w.Keys == st.counts.Keys
    && (forall k :: k in w ==> |w[k]| == st.counts[k])
    && (forall p, q :: Wired(w, p, q) <==> Connection(p, q) in st.made || Connection(q, p) in st.made)
  }

  lemma ConnectWires(w: Wiring, c: Connection, p: Port, q: Port)
    requires c.from.key != c.to.key && c.from.key in w && c.to.key in w
    requires |w[c.from.key]| == c.from.index && |w[c.to.key]| == c.to.index
    ensures Wired(Connect(w, c), p, q) <==> Wired(w, p, q) || Connection(p, q) == c || Connection(q, p) == c
  {
  }

  lemma ConnectMatches(st: State, w: Wiring, c: Connection)
    requires Matches(st, w) && c.from != c.to
    requires Visit(st, c).Ok? && Visit(st, c).value != st
    ensures Matches(Visit(st, c).value, Connect(w, c))
  {
    assert c.from.key != c.to.key;
    var w', st' := Connect(w, c), Visit(st, c).value;
    forall p, q ensures Wired(w', p, q) <==> Connection(p, q) in st'.made || Connection(q, p) in st'.made {
      ConnectWires(w, c, p, q);
      assert Wired(w, p, q) <==> Connection(p, q) in st.made || Connection(q, p) in st.made;
    }
  }

  lemma {:induction false} ReplayMatches(s: seq<Connection>, counts: map<PortKey, nat>)
    requires forall k :: k in counts ==> counts[k] == 0
    requires Loopless(s) && Pass(s, State(counts, [])).Ok?
    requires Known(Unwired(counts), Pass(s, State(counts, [])).value.made)
    ensures Matches(Pass(s, State(counts, [])).value, Replay(Pass(s, State(counts, [])).value.made, Unwired(counts)))
  {
    var start := State(counts, []);
    if s != [] {
      var st := Pass(s[..|s| - 1], start).value;
      PassKnown(s[..|s| - 1], start);
      ReplayMatches(s[..|s| - 1], counts);
      PassKeepsInv(s[..|s| - 1], start);
      var st' := Pass(s, start).value;
      if st' != st {
        ConnectMatches(st, Replay(st.made, Unwired(counts)), s[|s| - 1]);
        assert st'.made[..|st'.made| - 1] == st.made;
      }
    }
  }

  // ------------------------------------------------------------- the theorems

  /** The list `bind_ports` demands: every connection between two slots, in both directions, once. */
  ghost predicate Doubled(connections: seq<Connection>) {
    && NoDuplicates(connections)
    && Loopless(connections)
    && (forall c :: c in connections ==> c.Reverse() in connections)
  }

  /** Each slot has one peer. */
  ghost predicate OnePeerEach(connections: seq<Connection>) {
    forall c, d :: c in connections && d in connections && c.from == d.from ==> c == d
  }

  /** The indices of each port run from 0 without gaps. */
  ghost predicate Contiguous(connections: seq<Connection>) {
    forall c, i: nat :: c in connections && i < c.from.index ==>
      exists d :: d in connections && d.from == Port(c.from.key, i)
  }

  /** `chosen` takes every connection in one of its directions. */
  ghost predicate OneDirectionEach(chosen: set<Connection>, connections: seq<Connection>) {
    && (forall c :: c in chosen ==> c in connections && c.Reverse() !in chosen)
    && (forall c :: c in connections ==> c in chosen || c.Reverse() in chosen)
  }

  /** The sorted order of `chosen` meets the slots of every port in index order. */
  ghost predicate InSlotOrder(chosen: set<Connection>) {
    forall c, d, p: Port, q: Port ::
      c in chosen && d in chosen && c.Uses(p) && d.Uses(q) && p.key == q.key && p.index < q.index ==> Precedes(c, d)
  }

  ghost predicate OrderableInOnePass(connections: seq<Connection>) {
    exists chosen :: OneDirectionEach(chosen, connections) && InSlotOrder(chosen)
  }

  ghost function Start(connections: seq<Connection>): State {
    State(ZeroCounts(connections), [])
  }

  ghost function Arranged(connections: seq<Connection>): seq<Connection> {
    Sort(connections, ConnectionLe)
  }

  lemma StartInv(connections: seq<Connection>)
    ensures PassInv(Start(connections))
  {
  }

  lemma ArrangedFacts(connections: seq<Connection>)
    requires Doubled(connections)
    ensures Sorted(Arranged(connections), ConnectionLe) && NoDuplicates(Arranged(connections))
    ensures Loopless(Arranged(connections))
    ensures forall c :: c in Arranged(connections) <==> c in connections
  {
    OrderIsTotal();
    SortSorted(connections, ConnectionLe);
    SortNoDuplicates(connections, ConnectionLe);
    SortMembers(connections, ConnectionLe);
  }

  lemma ArrangedKeys(connections: seq<Connection>)
    requires Doubled(connections)
    ensures forall c :: c in Arranged(connections) ==>
              c.from.key in Start(connections).counts && c.to.key in Start(connections).counts
  {
    ArrangedFacts(connections);
    forall c | c in Arranged(connections)
      ensures c.from.key in ZeroCounts(connections) && c.to.key in ZeroCounts(connections)
    {
      assert c.Reverse() in connections;
    }
  }

  /** No lookup fails on a doubled list. */
  lemma {:induction false} PassNoKeyError(s: seq<Connection>, start: State)
    requires forall c :: c in s ==> c.from.key in start.counts && c.to.key in start.counts
    requires Known(Unwired(start.counts), start.made)
    ensures Pass(s, start).Ok?
  {
    if s != [] {
      PassNoKeyError(s[..|s| - 1], start);
      PassKnown(s[..|s| - 1], start);
    }
  }

  lemma DoubledNoKeyError(connections: seq<Connection>)
    requires Doubled(connections)
    ensures Pass(Arranged(connections), Start(connections)).Ok?
  {
    ArrangedKeys(connections);
    PassNoKeyError(Arranged(connections), Start(connections));
  }

  ghost function Made(connections: seq<Connection>): (made: seq<Connection>)
    requires Doubled(connections)
  {
    DoubledNoKeyError(connections);
    Pass(Arranged(connections), Start(connections)).value.made
  }

  lemma MadeFacts(connections: seq<Connection>)
    requires Doubled(connections)
    ensures SlotsDistinct(Made(connections)) && SlotsAscend(Made(connections))
    ensures Sorted(Made(connections), ConnectionLe)
    ensures forall c :: c in Made(connections) ==> c in connections
  {
    DoubledNoKeyError(connections);
    ArrangedFacts(connections);
    StartInv(connections);
    PassKeepsInv(Arranged(connections), Start(connections));
    PassSelects(Arranged(connections), Start(connections));
  }

  function Reversed(s: seq<Connection>): (r: seq<Connection>) {
    seq(|s|, i requires 0 <= i < |s| => s[i].Reverse())
  }

  lemma DistinctSlotsDistinctEntries(made: seq<Connection>)
    requires SlotsDistinct(made) && Loopless(made)
    ensures NoDuplicates(made + Reversed(made))
    ensures forall c :: c in made ==> c.Reverse() !in made
  {
    var both := made + Reversed(made);
    forall i, j | 0 <= i < j < |both| ensures both[i] != both[j] {
      var a := if i < |made| then i else i - |made|;
      var b := if j < |made| then j else j - |made|;
      var x := made[a].from;
      assert made[a] in made && both[i].Uses(x);
      if a != b {
        assert made[a].Uses(x) && !made[b].Uses(x);
        assert !both[j].Uses(x);
      }
    }
    forall i, j | 0 <= i < |made| && 0 <= j < |made| ensures made[i].Reverse() != made[j] {
      assert made[i] in made;
      if i != j {
        assert made[i].Uses(made[i].from) && !made[j].Uses(made[i].from);
      }
    }
  }

  /** The pass never takes both directions of a connection, and none twice. */
  lemma NeverBothDirections(connections: seq<Connection>)
    requires Doubled(connections)
    ensures NoDuplicates(Made(connections))
    ensures forall c :: c in Made(connections) ==> c.Reverse() !in Made(connections)
  {
    MadeFacts(connections);
    var made := Made(connections);
    DistinctSlotsDistinctEntries(made);
    var both := made + Reversed(made);
    assert forall i :: 0 <= i < |made| ==> both[i] == made[i];
  }

  lemma ReversedMembers(made: seq<Connection>, c: Connection)
    ensures c in made + Reversed(made) <==> c in made || c.Reverse() in made
  {
    var both := made + Reversed(made);
    if c.Reverse() in made {
      var i :| 0 <= i < |made| && made[i] == c.Reverse();
      assert both[|made| + i] == c;
    }
    if c in both && c !in made {
      var i :| 0 <= i < |both| && both[i] == c;
      assert made[i - |made|] == c.Reverse();
    }
  }

  /** When half of the entries are made, each connection is made in one direction. */
  lemma HalfMeansAll(made: seq<Connection>, connections: seq<Connection>)
    requires Doubled(connections) && SlotsDistinct(made)
    requires forall c :: c in made ==> c in connections
    requires |made| * 2 == |connections|
    ensures forall c :: c in connections <==> c in made || c.Reverse() in made
  {
    DistinctSlotsDistinctEntries(made);
    var both := made + Reversed(made);
    NoDuplicatesCard(both);
    NoDuplicatesCard(connections);
    var have, all := set c | c in both, set c | c in connections;
    forall c ensures c in have <==> c in made || c.Reverse() in made {
      ReversedMembers(made, c);
    }
    forall c | c in have ensures c in all {
      assert c in connections || c.Reverse() in connections;
      assert c.Reverse().Reverse() == c;
    }
    SubsetOfSameSize(have, all);
    forall c ensures c in connections <==> c in made || c.Reverse() in made {
      assert c in all <==> c in have;
    }
  }

  lemma MatchesEntries(st: State, w: Wiring, connections: seq<Connection>)
    requires Matches(st, w)
    requires forall c :: c in connections <==> c in st.made || c.Reverse() in st.made
    ensures Entries(w) == iset c | c in connections
  {
    forall c ensures c in Entries(w) <==> c in connections {
      assert c == Connection(c.from, c.to) && c.Reverse() == Connection(c.to, c.from);
      assert c in Entries(w) <==> Wired(w, c.from, c.to);
    }
  }

  /** A successful `bind_ports` rebuilds exactly the recorded wiring, slot by slot. */
  lemma BindRebuilds(connections: seq<Connection>)
    requires Doubled(connections) && Bind(connections).Ok?
    ensures Entries(Bind(connections).value) == iset c | c in connections
  {
    ArrangedFacts(connections);
    MadeFacts(connections);
    HalfMeansAll(Made(connections), connections);
    PassKnown(Arranged(connections), Start(connections));
    ReplayMatches(Arranged(connections), ZeroCounts(connections));
    MatchesEntries(Pass(Arranged(connections), Start(connections)).value, Bind(connections).value, connections);
  }

  // ------------------------------------------------------- when it can succeed

  /** Success means a direction for each connection that the sorted order can use. */
  lemma SuccessGivesOrder(made: seq<Connection>, connections: seq<Connection>)
    requires Doubled(connections) && |made| * 2 == |connections|
    requires forall c :: c in made ==> c in connections
    requires SlotsDistinct(made) && SlotsAscend(made) && Sorted(made, ConnectionLe)
    ensures OnePeerEach(connections) && Contiguous(connections) && OrderableInOnePass(connections)
  {
    HalfMeansAll(made, connections);
    DistinctSlotsDistinctEntries(made);
    var chosen := set c | c in made;
    assert OneDirectionEach(chosen, connections);
    MadeInSlotOrder(made);
    MadeOnePeer(made, connections);
    MadeContiguous(made, connections);
  }

  lemma MadeInSlotOrder(made: seq<Connection>)
    requires SlotsDistinct(made) && SlotsAscend(made) && Sorted(made, ConnectionLe)
    ensures InSlotOrder(set c | c in made)
  {
    forall c, d, p: Port, q: Port |
      c in made && d in made && c.Uses(p) && d.Uses(q) && p.key == q.key && p.index < q.index
      ensures Precedes(c, d)
    {
      var b :| 0 <= b < |made| && made[b] == d;
      assert Bound(made[..b], Port(q.key, p.index));
      var e :| e in made[..b] && e.Uses(p);
      var a :| 0 <= a < b && made[a] == e;
      var a' :| 0 <= a' < |made| && made[a'] == c;
      assert made[a].Uses(p) && made[a'].Uses(p);
      assert a' == a && !made[b].Uses(p);
    }
  }

  lemma MadeOnePeer(made: seq<Connection>, connections: seq<Connection>)
    requires SlotsDistinct(made) && Doubled(connections)
    requires forall c :: c in connections <==> c in made || c.Reverse() in made
    ensures OnePeerEach(connections)
  {
    forall c, d | c in connections && d in connections && c.from == d.from ensures c == d {
      var c' := if c in made then c else c.Reverse();
      var d' := if d in made then d else d.Reverse();
      var i :| 0 <= i < |made| && made[i] == c';
      var j :| 0 <= j < |made| && made[j] == d';
      assert made[i].Uses(c.from) && made[j].Uses(c.from);
      assert i == j;
    }
  }

  lemma MadeContiguous(made: seq<Connection>, connections: seq<Connection>)
    requires SlotsAscend(made)
    requires forall c :: c in connections <==> c in made || c.Reverse() in made
    ensures Contiguous(connections)
  {
    forall c, i: nat | c in connections && i < c.from.index
      ensures exists d :: d in connections && d.from == Port(c.from.key, i)
    {
      var c' := if c in made then c else c.Reverse();
      var b :| 0 <= b < |made| && made[b] == c';
      assert made[b].Uses(c.from);
      assert Bound(made[..b], Port(c.from.key, i));
      var d :| d in made[..b] && d.Uses(Port(c.from.key, i));
      assert d in made && d.Reverse().Reverse() == d;
      assert d.from == Port(c.from.key, i) || d.Reverse().from == Port(c.from.key, i);
    }
  }

  ghost predicate Taken(made: seq<Connection>, c: Connection) {
    c in made || c.Reverse() in made
  }

  /** The facts under which the pass is shown to keep up with `chosen`. */
  ghost predicate Plan(connections: seq<Connection>, chosen: set<Connection>) {
    && Doubled(connections) && OnePeerEach(connections) && Contiguous(connections)
    && OneDirectionEach(chosen, connections) && InSlotOrder(chosen)
  }

  lemma LowerSlotTaken(connections: seq<Connection>, chosen: set<Connection>,
                       made: seq<Connection>, c: Connection, p: Port, i: nat)
    requires Plan(connections, chosen) && c in chosen && c.Uses(p) && i < p.index
    requires forall d :: d in chosen && Precedes(d, c) ==> Taken(made, d)
    ensures Bound(made, Port(p.key, i))
  {
    var c' := if c.from == p then c else c.Reverse();
    assert c' in connections && c'.from == p;
    var d :| d in connections && d.from == Port(p.key, i);
    var d' := if d in chosen then d else d.Reverse();
    assert d'.Uses(Port(p.key, i));
    assert Precedes(d', c);
    assert d'.Reverse().Uses(Port(p.key, i));
  }

  lemma OnlyOnePairUses(connections: seq<Connection>, made: seq<Connection>, c: Connection, p: Port)
    requires Doubled(connections) && OnePeerEach(connections)
    requires forall d :: d in made ==> d in connections
    requires c in connections && c.Uses(p) && Bound(made, p)
    ensures Taken(made, c)
  {
    var c' := if c.from == p then c else c.Reverse();
    var d :| d in made && d.Uses(p);
    var d' := if d.from == p then d else d.Reverse();
    assert c' in connections && d' in connections && c'.from == d'.from;
    assert c' == d';
    assert c.Reverse().Reverse() == c && d.Reverse().Reverse() == d;
  }

  /** When the sorted order reaches a chosen entry, its connection is made or both ends fit. */
  lemma ChosenFits(connections: seq<Connection>, chosen: set<Connection>, st: State, c: Connection)
    requires Plan(connections, chosen) && c in chosen && CountersFit(st)
    requires forall d :: d in st.made ==> d in connections
    requires c.from.key in st.counts && c.to.key in st.counts
    requires forall d :: d in chosen && Precedes(d, c) ==> Taken(st.made, d)
    requires !Taken(st.made, c)
    ensures HasCorrectIndex(st.counts, c.from) && HasCorrectIndex(st.counts, c.to)
  {
    forall p | p == c.from || p == c.to ensures st.counts[p.key] == p.index {
      if Bound(st.made, p) {
        OnlyOnePairUses(connections, st.made, c, p);
        assert false;
      }
      if p.index > 0 {
        LowerSlotTaken(connections, chosen, st.made, c, p, p.index - 1);
        assert Port(p.key, p.index - 1).index < st.counts[p.key];
      }
    }
  }

  lemma {:induction false} PassKeepsUp(connections: seq<Connection>, chosen: set<Connection>,
                                       s: seq<Connection>, start: State)
    requires Plan(connections, chosen)
    requires PassInv(start) && start.made == []
    requires Sorted(s, ConnectionLe) && NoDuplicates(s) && Pass(s, start).Ok?
    requires forall c :: c in s ==> c in connections && c.from.key in start.counts && c.to.key in start.counts
    requires forall c, d :: c in s && d in chosen && Precedes(d, c) ==> d in s
    ensures forall c :: c in s && c in chosen ==> Taken(Pass(s, start).value.made, c)
  {
    if s != [] {
      var n := |s| - 1;
      var t, c := s[..n], s[n];
      assert s == t + [c];
      assert c !in t;
      forall e, d | e in t && d in chosen && Precedes(d, e) ensures d in t {
        PredecessorStaysLeft(s, d, e);
      }
      PassKeepsUp(connections, chosen, t, start);
      PassKeepsInv(t, start);
      PassSelects(t, start);
      PassKnown(t, start);
      var st := Pass(t, start).value;
      if c in chosen && !Taken(st.made, c) {
        ChosenFits(connections, chosen, st, c);
      }
    }
  }

  lemma PredecessorStaysLeft(s: seq<Connection>, d: Connection, e: Connection)
    requires s != [] && Sorted(s, ConnectionLe) && NoDuplicates(s)
    requires e in s[..|s| - 1] && d in s && Precedes(d, e)
    ensures d in s[..|s| - 1]
  {
    var n := |s| - 1;
    var i :| 0 <= i < n && s[i] == e;
    ConnectionTotalOrder(e, s[n], d);
    assert ConnectionLe(s[i], s[n]) && s[i] != s[n];
    assert d != s[n];
    var j :| 0 <= j < |s| && s[j] == d;
    assert s[..n][j] == d;
  }

  /** A chosen direction for each connection makes half of the entries. */
  lemma AllTakenMeansHalf(made: seq<Connection>, connections: seq<Connection>)
    requires Doubled(connections) && SlotsDistinct(made) && Loopless(made)
    requires forall c :: c in made ==> c in connections
    requires forall c :: c in connections ==> Taken(made, c)
    ensures |made| * 2 == |connections|
  {
    DistinctSlotsDistinctEntries(made);
    var both := made + Reversed(made);
    NoDuplicatesCard(both);
    NoDuplicatesCard(connections);
    forall c ensures c in both <==> c in connections {
      ReversedMembers(made, c);
      assert c.Reverse().Reverse() == c;
    }
    assert (set c | c in both) == (set c | c in connections);
  }

  lemma ChosenTakenMeansAll(connections: seq<Connection>, chosen: set<Connection>, made: seq<Connection>)
    requires OneDirectionEach(chosen, connections)
    requires forall c :: c in chosen ==> Taken(made, c)
    ensures forall c :: c in connections ==> Taken(made, c)
  {
    forall c | c in connections ensures Taken(made, c) {
      assert c in chosen || c.Reverse() in chosen;
      assert c.Reverse().Reverse() == c;
    }
  }

  lemma OrderGivesSuccess(connections: seq<Connection>, chosen: set<Connection>)
    requires Plan(connections, chosen)
    ensures |Made(connections)| * 2 == |connections|
  {
    var s, start := Arranged(connections), Start(connections);
    ArrangedFacts(connections);
    ArrangedKeys(connections);
    StartInv(connections);
    PassNoKeyError(s, start);
    PassKeepsUp(connections, chosen, s, start);
    ChosenTakenMeansAll(connections, chosen, Made(connections));
    MadeFacts(connections);
    AllTakenMeansHalf(Made(connections), connections);
  }

  /**
   Exactly when `bind_ports` succeeds: each slot has one peer, the indices have
   no gaps, and the sorted order can meet every port's slots in index order.
   */
  lemma BindSucceedsIff(connections: seq<Connection>)
    requires Doubled(connections)
    ensures Bind(connections).Ok? <==>
            OnePeerEach(connections) && Contiguous(connections) && OrderableInOnePass(connections)
  {
    DoubledNoKeyError(connections);
    MadeFacts(connections);
    assert Bind(connections).Ok? <==> |Made(connections)| * 2 == |connections|;
    if |Made(connections)| * 2 == |connections| {
      SuccessGivesOrder(Made(connections), connections);
    }
    if OnePeerEach(connections) && Contiguous(connections) && OrderableInOnePass(connections) {
      var chosen :| OneDirectionEach(chosen, connections) && InSlotOrder(chosen);
      OrderGivesSuccess(connections, chosen);
    }
  }

  // ---------------------------------------------------- plain ports, and chains

  /** The port has no slot but 0. */
  ghost predicate OneSlot(connections: seq<Connection>, k: PortKey) {
    forall c :: c in connections && c.from.key == k ==> c.from.index == 0
  }

  /** If every connection has an end on a one-slot port, nothing can go wrong. */
  lemma OneSlotEndsBind(connections: seq<Connection>)
    requires Doubled(connections) && OnePeerEach(connections) && Contiguous(connections)
    requires forall c :: c in connections ==> OneSlot(connections, c.from.key) || OneSlot(connections, c.to.key)
    ensures Bind(connections).Ok?
  {
    var chosen := set c | c in connections &&
      OneSlot(connections, c.to.key) && (OneSlot(connections, c.from.key) ==> ConnectionLe(c, c.Reverse()));
    forall c | c in connections ensures c in chosen <==> c.Reverse() !in chosen {
      ConnectionTotalOrder(c, c.Reverse(), c);
      assert c.Reverse().Reverse() == c && c != c.Reverse();
    }
    forall c, d, p: Port, q: Port |
      c in chosen && d in chosen && c.Uses(p) && d.Uses(q) && p.key == q.key && p.index < q.index
      ensures Precedes(c, d)
    {
      assert d.Reverse() in connections;
      assert c.Reverse() in connections;
      assert !OneSlot(connections, q.key);
      assert p == c.from && q == d.from;
    }
    assert OneDirectionEach(chosen, connections) && InSlotOrder(chosen);
    BindSucceedsIff(connections);
  }

  /** `order` takes every connection once and binds each port's slots in index order. */
  ghost predicate IsBindingOrder(order: seq<Connection>, connections: seq<Connection>) {
    && NoDuplicates(order + Reversed(order))
    && (forall c :: c in connections <==> Taken(order, c))
    && SlotsAscend(order)
  }

  const LEFT := PortKey("a", "p")
  const PLAIN := PortKey("b", "p")
  const RIGHT := PortKey("d", "p")
  const LAST := PortKey("e", "p")

  /** The connections d.p[0] - e.p, d.p[1] - a.p[0] and a.p[1] - b.p. */
  const CHAIN: seq<Connection> := [
    Connection(Port(RIGHT, 0), Port(LAST, 0)),
    Connection(Port(RIGHT, 1), Port(LEFT, 0)),
    Connection(Port(LEFT, 1), Port(PLAIN, 0))]

  lemma ChainAscends()
    ensures Loopless(CHAIN) && SlotsDistinct(CHAIN) && SlotsAscend(CHAIN)
  {
    forall b, p: Port, i: nat | 0 <= b < |CHAIN| && CHAIN[b].Uses(p) && i < p.index
      ensures Bound(CHAIN[..b], Port(p.key, i))
    {
      if b == 1 {
        assert CHAIN[..b][0].Uses(Port(RIGHT, 0));
      } else {
        assert CHAIN[..b][1].Uses(Port(LEFT, 0));
      }
    }
  }

  lemma ChainInOrder()
    ensures Doubled(CHAIN + Reversed(CHAIN))
    ensures IsBindingOrder(CHAIN, CHAIN + Reversed(CHAIN))
  {
    ChainAscends();
    DistinctSlotsDistinctEntries(CHAIN);
    var all := CHAIN + Reversed(CHAIN);
    forall c ensures c in all <==> Taken(CHAIN, c) {
      ReversedMembers(CHAIN, c);
    }
    forall c | c in all ensures c.from != c.to && c.Reverse() in all {
      assert c.Reverse().Reverse() == c;
      assert Taken(CHAIN, c.Reverse());
    }
  }

  lemma ChainNotInOnePass(chosen: set<Connection>)
    requires OneDirectionEach(chosen, CHAIN + Reversed(CHAIN))
    ensures !InSlotOrder(chosen)
  {
    var all := CHAIN + Reversed(CHAIN);
    assert all[0] in all && all[1] in all && all[2] in all;
    var z := if CHAIN[0] in chosen then CHAIN[0] else CHAIN[0].Reverse();
    var x := if CHAIN[1] in chosen then CHAIN[1] else CHAIN[1].Reverse();
    var y := if CHAIN[2] in chosen then CHAIN[2] else CHAIN[2].Reverse();
    assert z.Uses(Port(RIGHT, 0)) && x.Uses(Port(RIGHT, 1));
    assert x.Uses(Port(LEFT, 0)) && y.Uses(Port(LEFT, 1));
    assert !StringLe("d", "a") && !StringLe("d", "b") && !StringLe("e", "a");
    assert Precedes(z, x) ==> x == CHAIN[1];
    assert !Precedes(CHAIN[1], y);
  }

  lemma RejectedForOrder(connections: seq<Connection>)
    requires Doubled(connections) && !OrderableInOnePass(connections)
    ensures Bind(connections) == Err(CannotBeOrdered)
  {
    BindSucceedsIff(connections);
    DoubledNoKeyError(connections);
  }

  /** The pass rejects this list, though the chain itself is an order in which it could be bound. */
  lemma OrderableButRejected()
    ensures var connections := CHAIN + Reversed(CHAIN);
            && Doubled(connections) && IsBindingOrder(CHAIN, connections)
            && Bind(connections) == Err(CannotBeOrdered)
  {
    var all := CHAIN + Reversed(CHAIN);
    ChainInOrder();
    forall chosen | OneDirectionEach(chosen, all) ensures !InSlotOrder(chosen) {
      ChainNotInOnePass(chosen);
    }
    RejectedForOrder(all);
  }

  // ------------------------------------------------------- from the configuration

  ghost predicate DistinctKeys(entries: seq<PortEntry>) {
    forall i, j :: 0 <= i < j < |entries| ==> entries[i].key != entries[j].key
  }

  /** `e` records `c.to` as the peer of the slot `c.from`. */
  ghost predicate Records(e: PortEntry, c: Connection) {
    c.from.key == e.key && c.from.index < |e.peers| && e.peers[c.from.index] == c.to
  }

  lemma {:induction false} GatherMembers(entries: seq<PortEntry>, c: Connection)
    ensures c in Gather(entries) <==> exists e :: e in entries && Records(e, c)
  {
    if entries != [] {
      var init, last := entries[..|entries| - 1], entries[|entries| - 1];
      GatherMembers(init, c);
      assert entries == init + [last];
      if Records(last, c) {
        assert GatherOne(last)[c.from.index] == c;
      }
      if c in GatherOne(last) {
        var i :| 0 <= i < |GatherOne(last)| && GatherOne(last)[i] == c;
        assert Records(last, c);
      }
    }
  }

  lemma {:induction false} GatherDistinct(entries: seq<PortEntry>)
    requires DistinctKeys(entries)
    ensures NoDuplicates(Gather(entries))
  {
    if entries != [] {
      var init, last := entries[..|entries| - 1], entries[|entries| - 1];
      GatherDistinct(init);
      var a, b := Gather(init), GatherOne(last);
      assert forall i :: 0 <= i < |b| ==> b[i].from == Port(last.key, i);
      forall c | c in a ensures c.from.key != last.key {
        GatherMembers(init, c);
        var e :| e in init && Records(e, c);
      }
      forall i, j | 0 <= i < j < |a + b| ensures (a + b)[i] != (a + b)[j] {
        assert i < |a| ==> a[i] in a;
      }
    }
  }

  lemma SameKeySameEntry(entries: seq<PortEntry>, d: PortEntry, e: PortEntry)
    requires DistinctKeys(entries) && d in entries && e in entries && d.key == e.key
    ensures d == e
  {
    var i :| 0 <= i < |entries| && entries[i] == d;
    var j :| 0 <= j < |entries| && entries[j] == e;
    assert i == j;
  }

  /** What is gathered gives each slot one peer and leaves no gaps. */
  lemma {:induction false} GatheredIsRegular(entries: seq<PortEntry>)
    requires DistinctKeys(entries)
    ensures OnePeerEach(Gather(entries)) && Contiguous(Gather(entries))
  {
    var all := Gather(entries);
    forall c, d | c in all && d in all && c.from == d.from ensures c == d {
      GatherMembers(entries, c);
      GatherMembers(entries, d);
      var e :| e in entries && Records(e, c);
      var f :| f in entries && Records(f, d);
      SameKeySameEntry(entries, e, f);
    }
    forall c, i: nat | c in all && i < c.from.index ensures exists d :: d in all && d.from == Port(c.from.key, i) {
      GatherMembers(entries, c);
      var e :| e in entries && Records(e, c);
      var d := Connection(Port(e.key, i), e.peers[i]);
      GatherMembers(entries, d);
      assert Records(e, d);
    }
  }

  /** Every recorded peer records the slot in turn, and no slot is its own peer. */
  ghost predicate Mutual(entries: seq<PortEntry>) {
    forall c :: c in Gather(entries) ==> c.from != c.to && c.Reverse() in Gather(entries)
  }

  /**
   Reading a configuration back: when the ports can be bound, every port ends up
   with exactly the peers recorded for it, in the recorded order.
   */
  lemma {:induction false} ConfigurationRebuilt(entries: seq<PortEntry>, e: PortEntry)
    requires DistinctKeys(entries) && Mutual(entries) && Bind(Gather(entries)).Ok?
    requires e in entries && e.peers != []
    ensures e.key in Bind(Gather(entries)).value && Bind(Gather(entries)).value[e.key] == e.peers
  {
    var all := Gather(entries);
    GatherDistinct(entries);
    BindRebuilds(all);
    var w := Bind(all).value;
    forall i: nat, q: Port ensures Wired(w, Port(e.key, i), q) <==> i < |e.peers| && e.peers[i] == q {
      var c := Connection(Port(e.key, i), q);
      RecordedHere(entries, e, c);
      assert c in Entries(w) <==> Wired(w, c.from, c.to);
    }
    WiredIsList(w, e);
  }

  lemma {:induction false} RecordedHere(entries: seq<PortEntry>, e: PortEntry, c: Connection)
    requires DistinctKeys(entries) && e in entries && c.from.key == e.key
    ensures c in Gather(entries) <==> Records(e, c)
  {
    GatherMembers(entries, c);
    if c in Gather(entries) {
      var f :| f in entries && Records(f, c);
      SameKeySameEntry(entries, e, f);
    }
  }

  lemma WiredIsList(w: Wiring, e: PortEntry)
    requires forall i: nat, q: Port :: Wired(w, Port(e.key, i), q) <==> i < |e.peers| && e.peers[i] == q
    requires e.peers != []
    ensures e.key in w && w[e.key] == e.peers
  {
    assert Wired(w, Port(e.key, 0), e.peers[0]);
    var l := w[e.key];
    forall i: nat | i < |e.peers| ensures i < |l| && l[i] == e.peers[i] {
      assert Wired(w, Port(e.key, i), e.peers[i]);
    }
    assert Wired(w, Port(e.key, |e.peers| - 1), e.peers[|e.peers| - 1]);
    if |l| > |e.peers| {
      assert Wired(w, Port(e.key, |e.peers|), l[|e.peers|]);
    }
    assert l == e.peers;
  }
}
