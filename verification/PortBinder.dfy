/**
 `ConfigManager.bind_ports`: one greedy pass over the sorted list of directed
 connections, with a counter per port that says which slot is bound next.
 */
module PortBinder {
  import opened Sorting
  import opened PortOrder

  datatype Error = KeyError | CannotBeOrdered
  datatype Result<T> = Ok(value: T) | Err(error: Error)

  /** For each port, the peer of its slot 0, 1, 2, ... */
  type Wiring = map<PortKey, seq<Port>>

  /** The pass in mid-flight: `port_bind_indices` and `connections_to_make`. */
  datatype State = State(counts: map<PortKey, nat>, made: seq<Connection>)

  /** A port of the configuration with the peers recorded for it, in order. */
  datatype PortEntry = PortEntry(key: PortKey, peers: seq<Port>)

  // ----------------------------------------------------------------- gathering

  function GatherOne(e: PortEntry): seq<Connection> {
    seq(|e.peers|, i requires 0 <= i < |e.peers| => Connection(Port(e.key, i), e.peers[i]))
  }

  function Gather(entries: seq<PortEntry>): seq<Connection> {
    if entries == [] then [] else Gather(entries[..|entries| - 1]) + GatherOne(entries[|entries| - 1])
  }

  method GatherPortConnections(entries: seq<PortEntry>) returns (connections: seq<Connection>)
    ensures connections == Gather(entries)
  {
    connections := [];
    for i := 0 to |entries|
      invariant connections == Gather(entries[..i])
    {
      assert entries[..i + 1][..i] == entries[..i];
      var peers := entries[i].peers;
      ghost var before := connections;
      for index := 0 to |peers|
        invariant connections == before + GatherOne(entries[i])[..index]
      {
        connections := connections + [Connection(Port(entries[i].key, index), peers[index])];
      }
    }
    assert entries[..|entries|] == entries;
  }

  // ---------------------------------------------------------------- the pass

  function ZeroCounts(connections: seq<Connection>): map<PortKey, nat> {
    map c | c in connections :: c.from.key := 0
  }

  predicate HasCorrectIndex(counts: map<PortKey, nat>, p: Port)
    requires p.key in counts
  {
    counts[p.key] == p.index
  }

  function Increment(counts: map<PortKey, nat>, k: PortKey): map<PortKey, nat>
    requires k in counts
  {
    counts[k := counts[k] + 1]
  }

  /** One turn of the loop; the second lookup only happens when the first end fits. */
  function Visit(st: State, c: Connection): Result<State> {
    if c.from.key !in st.counts then Err(KeyError)
    else if !HasCorrectIndex(st.counts, c.from) then Ok(st)
    else if c.to.key !in st.counts then Err(KeyError)
    else if !HasCorrectIndex(st.counts, c.to) then Ok(st)
    else Ok(State(Increment(Increment(st.counts, c.from.key), c.to.key), st.made + [c]))
  }

  function Pass(s: seq<Connection>, start: State): Result<State> {
    if s == [] then Ok(start)
    else
      var before := Pass(s[..|s| - 1], start);
      if before.Err? then before else Visit(before.value, s[|s| - 1])
  }

  /** Assigning one port to another appends a new slot at both ends. */
  function Connect(w: Wiring, c: Connection): (r: Wiring)
    requires c.from.key in w && c.to.key in w
    ensures r.Keys == w.Keys
  {
    var from := Port(c.from.key, |w[c.from.key]|);
    var to := Port(c.to.key, |w[c.to.key]| + if c.to.key == c.from.key then 1 else 0);
    var w' := w[c.from.key := w[c.from.key] + [to]];
    w'[c.to.key := w'[c.to.key] + [from]]
  }

  predicate Known(w: Wiring, made: seq<Connection>) {
    forall c :: c in made ==> c.from.key in w && c.to.key in w
  }

  function Replay(made: seq<Connection>, w: Wiring): (r: Wiring)
    requires Known(w, made)
    ensures r.Keys == w.Keys
  {
    if made == [] then w
    else Connect(Replay(made[..|made| - 1], w), made[|made| - 1])
  }

  function Unwired(counts: map<PortKey, nat>): Wiring {
    map k | k in counts :: []
  }

  lemma {:induction false} PassKnown(s: seq<Connection>, start: State)
    requires Pass(s, start).Ok? && Known(Unwired(start.counts), start.made)
    ensures Pass(s, start).value.counts.Keys == start.counts.Keys
    ensures Known(Unwired(start.counts), Pass(s, start).value.made)
  {
    if s != [] {
      PassKnown(s[..|s| - 1], start);
    }
  }

  /** What `bind_ports` does, as a function of the connection list. */
  function Bind(connections: seq<Connection>): Result<Wiring> {
    var start := State(ZeroCounts(connections), []);
    var end := Pass(Sort(connections, ConnectionLe), start);
    if end.Err? then Err(end.error)
    else if |end.value.made| * 2 != |connections| then Err(CannotBeOrdered)
    else
      PassKnown(Sort(connections, ConnectionLe), start);
      Ok(Replay(end.value.made, Unwired(start.counts)))
  }

  /** Lines 308-311: every port that starts a connection gets the counter 0. */
  method MarkPorts(connections: seq<Connection>) returns (portBindIndices: map<PortKey, nat>)
    ensures portBindIndices == ZeroCounts(connections)
  {
    portBindIndices := map[];
    for i := 0 to |connections|
      invariant portBindIndices == ZeroCounts(connections[..i])
    {
      portBindIndices := portBindIndices[connections[i].from.key := 0];
      assert connections[..i + 1] == connections[..i] + [connections[i]];
    }
    assert connections[..|connections|] == connections;
  }

  /** Lines 331-341: the greedy selection. */
  method SelectConnections(sorted: seq<Connection>, counts: map<PortKey, nat>) returns (r: Result<State>)
    ensures r == Pass(sorted, State(counts, []))
  {
    var portBindIndices := counts;
    var connectionsToMake: seq<Connection> := [];
    ghost var start := State(counts, []);
    for i := 0 to |sorted|
      invariant Pass(sorted[..i], start) == Ok(State(portBindIndices, connectionsToMake))
    {
      var from, to := sorted[i].from, sorted[i].to;
      assert sorted[..i + 1][..i] == sorted[..i];
      if from.key !in portBindIndices {
        PassStuck(sorted, i + 1, start);
        return Err(KeyError);
      }
      if portBindIndices[from.key] == from.index {
        if to.key !in portBindIndices {
          PassStuck(sorted, i + 1, start);
          return Err(KeyError);
        }
        if portBindIndices[to.key] == to.index {
          connectionsToMake := connectionsToMake + [sorted[i]];
          portBindIndices := portBindIndices[from.key := portBindIndices[from.key] + 1];
          portBindIndices := portBindIndices[to.key := portBindIndices[to.key] + 1];
        }
      }
    }
    assert sorted[..|sorted|] == sorted;
    r := Ok(State(portBindIndices, connectionsToMake));
  }

  /** Lines 349-354: the selected connections are assigned one after the other. */
  method MakeConnections(connectionsToMake: seq<Connection>, unwired: Wiring) returns (wiring: Wiring)
    requires Known(unwired, connectionsToMake)
    ensures wiring == Replay(connectionsToMake, unwired)
  {
    wiring := unwired;
    for i := 0 to |connectionsToMake|
      invariant wiring == Replay(connectionsToMake[..i], unwired)
    {
      assert connectionsToMake[..i + 1][..i] == connectionsToMake[..i];
      wiring := Connect(wiring, connectionsToMake[i]);
    }
    assert connectionsToMake[..|connectionsToMake|] == connectionsToMake;
  }

  method BindPorts(connections: seq<Connection>) returns (r: Result<Wiring>)
    ensures r == Bind(connections)
  {
    var portBindIndices := MarkPorts(connections);
    var sorted := Sort(connections, ConnectionLe);
    var selected := SelectConnections(sorted, portBindIndices);
    if selected.Err? {
      return Err(selected.error);
    }
    var connectionsToMake := selected.value.made;
    if |connectionsToMake| * 2 != |connections| {
      return Err(CannotBeOrdered);
    }
    PassKnown(sorted, State(portBindIndices, []));
    var wiring := MakeConnections(connectionsToMake, Unwired(portBindIndices));
    r := Ok(wiring);
  }

  /** A failed lookup ends the pass. */
  lemma {:induction false} PassStuck(s: seq<Connection>, n: nat, start: State)
    requires n <= |s| && Pass(s[..n], start).Err?
    ensures Pass(s, start) == Pass(s[..n], start)
    decreases |s|
  {
    if n < |s| {
      var t := s[..|s| - 1];
      assert t[..n] == s[..n];
      PassStuck(t, n, start);
    } else {
      assert s[..n] == s;
    }
  }
}
