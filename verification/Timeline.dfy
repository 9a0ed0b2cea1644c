/**
 The timeline rows of `print_inst` in `o3-pipeview.py`: which stage marks a row
 shows and in which cells. Colours and text around the row are not modelled.
 */
module Timeline {
  import opened Arith
  import opened Sorting
  import opened Strings
  import opened PrintQueue

  datatype Stage = Fetch | Decode | Rename | Dispatch | Issue | Complete | Retire | Store

  datatype Cell = Dot | Mark(stage: Stage)

  datatype Event = Event(offset: nat, stage: Stage)

  /** The timeline's settings: cells per row, ticks per cell, and whether stores are shown. */
  datatype Layout = Layout(width: nat, cycle: nat, stores: bool) {
    ghost predicate Valid() { width > 0 && cycle > 0 }
    function TimeWidth(): nat { width * cycle }
    function Stages(): seq<Stage> {
      [Fetch, Decode, Rename, Dispatch, Issue, Complete, Retire] + if stores then [Store] else []
    }
  }

  function Name(s: Stage): string {
    match s
    case Fetch => "fetch" case Decode => "decode" case Rename => "rename" case Dispatch => "dispatch"
    case Issue => "issue" case Complete => "complete" case Retire => "retire" case Store => "store"
  }

  function Tick(x: Inst, s: Stage): nat {
    match s
    case Fetch => x.fetch case Decode => x.decode case Rename => x.rename case Dispatch => x.dispatch
    case Issue => x.issue case Complete => x.complete case Retire => x.retire case Store => x.store
  }

  predicate EventLe(a: Event, b: Event) {
    a.offset < b.offset || (a.offset == b.offset && StringLe(Name(a.stage), Name(b.stage)))
  }

  function Max(a: nat, b: nat): nat {
    if a >= b then a else b
  }

  function LastEventTime(x: Inst, l: Layout): nat {
    var t := Max(x.fetch, Max(x.decode, Max(x.rename, Max(x.dispatch, Max(x.issue, Max(x.complete, x.retire))))));
    if l.stores then Max(t, x.store) else t
  }

  function BaseTick(x: Inst, l: Layout): nat
    requires l.Valid()
  {
    (x.fetch / l.TimeWidth()) * l.TimeWidth()
  }

  /** A timeline shorter than a row is printed in one, wrapping around at its end. */
  predicate Compact(x: Inst, l: Layout) {
    LastEventTime(x, l) - x.fetch < l.TimeWidth()
  }

  function NumLines(x: Inst, l: Layout): nat
    requires l.Valid()
  {
    if Compact(x, l) then 1
    else
      BaseBelow(x, l);
      (LastEventTime(x, l) - BaseTick(x, l)) / l.TimeWidth() + 1
  }

  lemma BaseBelow(x: Inst, l: Layout)
    requires l.Valid()
    ensures l.TimeWidth() > 0
    ensures BaseTick(x, l) <= x.fetch < BaseTick(x, l) + l.TimeWidth()
    ensures BaseTick(x, l) <= LastEventTime(x, l)
  {
    assert x.fetch == l.TimeWidth() * (x.fetch / l.TimeWidth()) + x.fetch % l.TimeWidth();
  }

  function StartTick(x: Inst, l: Layout, row: nat): nat
    requires l.Valid()
  {
    BaseTick(x, l) + row * l.TimeWidth()
  }

  function EndTick(x: Inst, l: Layout, row: nat): int
    requires l.Valid()
  {
    StartTick(x, l, row) + l.TimeWidth() + if NumLines(x, l) == 1 then x.fetch - BaseTick(x, l) else 0
  }

  predicate InRow(x: Inst, l: Layout, row: nat, s: Stage)
    requires l.Valid()
  {
    Tick(x, s) != 0 && StartTick(x, l, row) <= Tick(x, s) < EndTick(x, l, row)
  }

  /** The events of a row, in the order of the stage table. */
  function Events(x: Inst, l: Layout, row: nat, stages: seq<Stage>): seq<Event>
    requires l.Valid()
  {
    if stages == [] then []
    else
      var s := stages[|stages| - 1];
      Events(x, l, row, stages[..|stages| - 1]) +
      if InRow(x, l, row, s) then [Event(Tick(x, s) % l.TimeWidth(), s)] else []
  }

  /** A dispatch at the tick of the issue is not drawn. */
  predicate Skipped(x: Inst, s: Stage) {
    s == Dispatch && x.dispatch == x.issue
  }

  function Visible(x: Inst, es: seq<Event>): seq<Event> {
    if es == [] then []
    else Visible(x, es[..|es| - 1]) + if Skipped(x, es[|es| - 1].stage) then [] else [es[|es| - 1]]
  }

  function Column(e: Event, cycle: nat): nat
    requires cycle > 0
  {
    e.offset / cycle
  }

  /** The first cell behind the last mark, were no two marks to share a cell. */
  function Position(es: seq<Event>, cycle: nat): nat
    requires cycle > 0
  {
    if es == [] then 0 else Column(es[|es| - 1], cycle) + 1
  }

  /** Python's `dot * n`: nothing when n is negative. */
  function Dots(n: int): seq<Cell> {
    seq(if n > 0 then n else 0, _ => Dot)
  }

  function Marks(es: seq<Event>, cycle: nat): seq<Cell>
    requires cycle > 0
  {
    if es == [] then []
    else
      var before := es[..|es| - 1];
      Marks(before, cycle) + Dots(Column(es[|es| - 1], cycle) - Position(before, cycle)) + [Mark(es[|es| - 1].stage)]
  }

  function RowEvents(x: Inst, l: Layout, row: nat): seq<Event>
    requires l.Valid()
  {
    Sort(Events(x, l, row, l.Stages()), EventLe)
  }

  function Row(x: Inst, l: Layout, row: nat): seq<Cell>
    requires l.Valid()
  {
    var es := Visible(x, RowEvents(x, l, row));
    Marks(es, l.cycle) + Dots(l.width - Position(es, l.cycle))
  }

  datatype Result = Rows(rows: seq<seq<Cell>>) | IndexError

  /** Lines 253-260: the events of the row, stage by stage. */
  method CollectEvents(x: Inst, l: Layout, row: nat) returns (events: seq<Event>)
    requires l.Valid()
    ensures events == Events(x, l, row, l.Stages())
  {
    BaseBelow(x, l);
    var timeWidth := l.TimeWidth();
    var startTick, endTick := StartTick(x, l, row), EndTick(x, l, row);
    var stages := l.Stages();
    events := [];
    for i := 0 to |stages|
      invariant events == Events(x, l, row, stages[..i])
    {
      assert stages[..i + 1][..i] == stages[..i];
      var tick := Tick(x, stages[i]);
      if tick != 0 {
        if tick >= startTick && tick < endTick {
          events := events + [Event(tick % timeWidth, stages[i])];
        }
      }
    }
    assert stages[..|stages|] == stages;
  }

  lemma {:induction false} VisibleStep(x: Inst, es: seq<Event>, i: nat)
    requires i < |es|
    ensures Visible(x, es[..i + 1]) == Visible(x, es[..i]) + if Skipped(x, es[i].stage) then [] else [es[i]]
  {
    assert es[..i + 1][..i] == es[..i];
  }

  lemma {:induction false} MarksStep(es: seq<Event>, e: Event, cycle: nat)
    requires cycle > 0
    ensures Position(es + [e], cycle) == Column(e, cycle) + 1
    ensures Marks(es + [e], cycle) == Marks(es, cycle) + Dots(Column(e, cycle) - Position(es, cycle)) + [Mark(e.stage)]
  {
    assert (es + [e])[..|es|] == es;
  }

  /** Lines 263-280: the sorted events become cells. */
  method DrawEvents(x: Inst, l: Layout, events: seq<Event>) returns (cells: seq<Cell>)
    requires l.Valid()
    ensures var es := Visible(x, events); cells == Marks(es, l.cycle) + Dots(l.width - Position(es, l.cycle))
  {
    cells := [];
    var pos := 0;
    ghost var seen: seq<Event> := [];
    for i := 0 to |events|
      invariant seen == Visible(x, events[..i])
      invariant cells == Marks(seen, l.cycle) && pos == Position(seen, l.cycle)
    {
      VisibleStep(x, events, i);
      var event := events[i];
      if event.stage == Dispatch && x.dispatch == x.issue {
        continue;
      }
      MarksStep(seen, event, l.cycle);
      cells := cells + Dots(event.offset / l.cycle - pos) + [Mark(event.stage)];
      pos := event.offset / l.cycle + 1;
      seen := seen + [event];
    }
    assert events[..|events|] == events;
    cells := cells + Dots(l.width - pos);
  }

  method PrintRow(x: Inst, l: Layout, row: nat) returns (cells: seq<Cell>, none: bool)
    requires l.Valid()
    ensures cells == Row(x, l, row)
    ensures none <==> RowEvents(x, l, row) == []
  {
    var events := CollectEvents(x, l, row);
    events := Sort(events, EventLe);
    cells := DrawEvents(x, l, events);
    none := events == [];
  }

  lemma {:induction false} EventsMembers(x: Inst, l: Layout, row: nat, stages: seq<Stage>)
    requires l.Valid()
    ensures forall e :: e in Events(x, l, row, stages) <==>
              e.stage in stages && InRow(x, l, row, e.stage) && e.offset == Tick(x, e.stage) % l.TimeWidth()
  {
    if stages != [] {
      var n := |stages| - 1;
      EventsMembers(x, l, row, stages[..n]);
      assert stages == stages[..n] + [stages[n]];
    }
  }

  lemma LastIsLast(x: Inst, l: Layout, s: Stage)
    requires s in l.Stages()
    ensures Tick(x, s) <= LastEventTime(x, l)
  {
  }

  /** The last event is that of some stage. */
  lemma LastIsReached(x: Inst, l: Layout) returns (s: Stage)
    ensures s in l.Stages() && Tick(x, s) == LastEventTime(x, l)
  {
    var t, st := LastEventTime(x, l), l.Stages();
    assert Tick(x, st[0]) == x.fetch && Tick(x, st[1]) == x.decode && Tick(x, st[2]) == x.rename;
    assert Tick(x, st[3]) == x.dispatch && Tick(x, st[4]) == x.issue;
    assert Tick(x, st[5]) == x.complete && Tick(x, st[6]) == x.retire && (l.stores ==> Tick(x, st[7]) == x.store);
    var i :| 0 <= i < |st| && Tick(x, st[i]) == t;
    s := st[i];
  }

  /** The compact form has no event to look at exactly when the instruction reached no stage at all. */
  lemma NoEventIff(x: Inst, l: Layout)
    requires l.Valid()
    ensures Compact(x, l) && RowEvents(x, l, 0) == [] <==> LastEventTime(x, l) == 0
  {
    var events := Events(x, l, 0, l.Stages());
    EventsMembers(x, l, 0, l.Stages());
    SortMembers(events, EventLe);
    if LastEventTime(x, l) == 0 {
      if events != [] {
        assert events[0] in events;
        LastIsLast(x, l, events[0].stage);
        assert false;
      }
    } else if Compact(x, l) {
      BaseBelow(x, l);
      var s := LastIsReached(x, l);
      assert InRow(x, l, 0, s);
      assert Event(Tick(x, s) % l.TimeWidth(), s) in events;
    }
  }

  /** All rows of an instruction; it fails when no stage was reached, as there is no event to look at. */
  method PrintInst(x: Inst, l: Layout) returns (r: Result)
    requires l.Valid()
    ensures r.IndexError? <==> LastEventTime(x, l) == 0
    ensures r.Rows? ==> |r.rows| == NumLines(x, l) && forall i :: 0 <= i < |r.rows| ==> r.rows[i] == Row(x, l, i)
  {
    LinesAtLeast(x, l);
    NoEventIff(x, l);
    var numLines := NumLines(x, l);
    var rows: seq<seq<Cell>> := [];
    for i := 0 to numLines
      invariant |rows| == i && forall k :: 0 <= k < i ==> rows[k] == Row(x, l, k)
      invariant numLines == 1 && i > 0 ==> RowEvents(x, l, 0) != []
    {
      var cells, none := PrintRow(x, l, i);
      if numLines == 1 && none {
        return IndexError;
      }
      rows := rows + [cells];
    }
    r := Rows(rows);
  }

  /** One line means the compact form. */
  lemma LinesAtLeast(x: Inst, l: Layout)
    requires l.Valid()
    ensures NumLines(x, l) == 1 <==> Compact(x, l)
    ensures NumLines(x, l) >= 1
  {
    BaseBelow(x, l);
    if !Compact(x, l) {
      DivPositive(LastEventTime(x, l) - BaseTick(x, l), l.TimeWidth());
    }
  }
}
