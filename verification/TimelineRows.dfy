/**
 What the rows of an instruction show: every stage that was reached is marked in
 exactly one row and there once; a row has one cell per column, plus one for each
 mark that has to share its column with the mark before it; and with ticks that
 are distinct multiples of the cycle time each mark stands in its own column.
 */
module TimelineRows {
  import opened Arith
  import opened Sorting
  import opened Strings
  import opened PrintQueue
  import opened Timeline

  // ------------------------------------------------------------ cells of a row

  ghost predicate ByOffset(es: seq<Event>) {
    forall i, j :: 0 <= i < j < |es| ==> es[i].offset <= es[j].offset
  }

  /** Adjacent marks that share a column. */
  ghost function Collisions(es: seq<Event>, cycle: nat): nat
    requires cycle > 0
  {
    if |es| < 2 then 0
    else Collisions(es[..|es| - 1], cycle) +
         if Column(es[|es| - 1], cycle) == Column(es[|es| - 2], cycle) then 1 else 0
  }

  lemma ColumnMonotone(a: nat, b: nat, cycle: nat)
    requires cycle > 0 && a <= b
    ensures a / cycle <= b / cycle
  {
    if b / cycle < a / cycle {
      MulStep(cycle, b / cycle, a / cycle);
    }
  }

  lemma {:induction false} MarksLength(es: seq<Event>, cycle: nat)
    requires cycle > 0 && ByOffset(es)
    ensures |Marks(es, cycle)| == Position(es, cycle) + Collisions(es, cycle)
  {
    if es != [] {
      var n := |es| - 1;
      MarksLength(es[..n], cycle);
      if n > 0 {
        ColumnMonotone(es[n - 1].offset, es[n].offset, cycle);
      }
    }
  }

  lemma {:induction false} MarksPrefix(es: seq<Event>, k: nat, cycle: nat)
    requires cycle > 0 && k <= |es|
    ensures Marks(es[..k], cycle) <= Marks(es, cycle)
  {
    if k < |es| {
      var n := |es| - 1;
      MarksPrefix(es[..n], k, cycle);
      assert es[..n][..k] == es[..k];
    } else {
      assert es[..k] == es;
    }
  }

  /** The k-th mark stands in its column, shifted by the collisions up to it. */
  lemma {:induction false} MarkPlace(es: seq<Event>, k: nat, cycle: nat)
    requires cycle > 0 && ByOffset(es) && k < |es|
    ensures var c := Column(es[k], cycle) + Collisions(es[..k + 1], cycle);
            c < |Marks(es, cycle)| && Marks(es, cycle)[c] == Mark(es[k].stage)
  {
    MarksLength(es[..k + 1], cycle);
    MarksPrefix(es, k + 1, cycle);
    var p := Marks(es[..k + 1], cycle);
    assert p[|p| - 1] == Mark(es[k].stage);
    assert Marks(es, cycle)[|p| - 1] == p[|p| - 1];
  }

  /** The stages marked in a row, from left to right. */
  ghost function Marked(cells: seq<Cell>): seq<Stage> {
    if cells == [] then []
    else Marked(cells[..|cells| - 1]) + if cells[|cells| - 1].Mark? then [cells[|cells| - 1].stage] else []
  }

  ghost function StagesOf(es: seq<Event>): seq<Stage> {
    seq(|es|, i requires 0 <= i < |es| => es[i].stage)
  }

  lemma {:induction false} MarkedAppend(a: seq<Cell>, b: seq<Cell>)
    ensures Marked(a + b) == Marked(a) + Marked(b)
  {
    if b == [] {
      assert a + b == a;
    } else {
      assert (a + b)[..|a + b| - 1] == a + b[..|b| - 1];
      MarkedAppend(a, b[..|b| - 1]);
    }
  }

  lemma {:induction false} MarkedDots(cells: seq<Cell>)
    requires forall i :: 0 <= i < |cells| ==> cells[i] == Dot
    ensures Marked(cells) == []
  {
    if cells != [] {
      MarkedDots(cells[..|cells| - 1]);
    }
  }

  lemma {:induction false} MarkedMarks(es: seq<Event>, cycle: nat)
    requires cycle > 0
    ensures Marked(Marks(es, cycle)) == StagesOf(es)
  {
    if es != [] {
      var n := |es| - 1;
      MarkedMarks(es[..n], cycle);
      var dots := Dots(Column(es[n], cycle) - Position(es[..n], cycle));
      MarkedDots(dots);
      MarkedAppend(Marks(es[..n], cycle), dots);
      MarkedAppend(Marks(es[..n], cycle) + dots, [Mark(es[n].stage)]);
      assert Marked([Mark(es[n].stage)]) == [es[n].stage];
      assert StagesOf(es) == StagesOf(es[..n]) + [es[n].stage];
    }
  }

  // ------------------------------------------------------------ events of a row

  lemma EventOrder()
    ensures TotalPreorder(EventLe)
  {
    forall a, b ensures EventLe(a, b) || EventLe(b, a) {
      StringTotal(Name(a.stage), Name(b.stage));
    }
    forall a, b, c | EventLe(a, b) && EventLe(b, c) ensures EventLe(a, c) {
      if a.offset == b.offset == c.offset {
        StringTransitive(Name(a.stage), Name(b.stage), Name(c.stage));
      }
    }
  }

  lemma {:induction false} EventsDistinct(x: Inst, l: Layout, row: nat, stages: seq<Stage>)
    requires l.Valid() && NoDuplicates(stages)
    ensures NoDuplicates(Events(x, l, row, stages))
  {
    if stages != [] {
      var n := |stages| - 1;
      EventsDistinct(x, l, row, stages[..n]);
      EventsMembers(x, l, row, stages[..n]);
      var es := Events(x, l, row, stages[..n]);
      forall e | e in es ensures e.stage != stages[n] {
      }
    }
  }

  lemma {:induction false} VisibleMembers(x: Inst, es: seq<Event>)
    ensures forall e :: e in Visible(x, es) <==> e in es && !Skipped(x, e.stage)
    ensures |Visible(x, es)| <= |es|
  {
    if es != [] {
      VisibleMembers(x, es[..|es| - 1]);
      assert es == es[..|es| - 1] + [es[|es| - 1]];
    }
  }

  lemma {:induction false} VisibleKeepsOrder(x: Inst, es: seq<Event>)
    requires Sorted(es, EventLe) && NoDuplicates(es)
    ensures ByOffset(Visible(x, es)) && NoDuplicates(Visible(x, es))
  {
    if es != [] {
      var n := |es| - 1;
      var before, vs := Visible(x, es[..n]), Visible(x, es);
      VisibleKeepsOrder(x, es[..n]);
      VisibleMembers(x, es[..n]);
      forall e | e in before ensures e.offset <= es[n].offset && e != es[n] {
        var i :| 0 <= i < n && es[i] == e;
        assert EventLe(es[i], es[n]);
      }
    }
  }

  ghost function Drawn(x: Inst, l: Layout, row: nat): seq<Event>
    requires l.Valid()
  {
    Visible(x, RowEvents(x, l, row))
  }

  lemma DrawnFacts(x: Inst, l: Layout, row: nat)
    requires l.Valid()
    ensures ByOffset(Drawn(x, l, row)) && NoDuplicates(Drawn(x, l, row))
    ensures forall e :: e in Drawn(x, l, row) <==>
              e.stage in l.Stages() && InRow(x, l, row, e.stage) && !Skipped(x, e.stage) &&
              e.offset == Tick(x, e.stage) % l.TimeWidth()
  {
    var events := Events(x, l, row, l.Stages());
    EventOrder();
    SortSorted(events, EventLe);
    EventsDistinct(x, l, row, l.Stages());
    SortNoDuplicates(events, EventLe);
    SortMembers(events, EventLe);
    EventsMembers(x, l, row, l.Stages());
    VisibleKeepsOrder(x, RowEvents(x, l, row));
    VisibleMembers(x, RowEvents(x, l, row));
  }

  lemma ColumnInRow(offset: nat, l: Layout)
    requires l.Valid() && offset < l.TimeWidth()
    ensures offset / l.cycle < l.width
  {
    if offset / l.cycle >= l.width {
      if offset / l.cycle > l.width {
        MulStep(l.cycle, l.width, offset / l.cycle);
      }
    }
  }

  lemma DrawnColumns(x: Inst, l: Layout, row: nat)
    requires l.Valid()
    ensures forall e :: e in Drawn(x, l, row) ==> Column(e, l.cycle) < l.width
  {
    DrawnFacts(x, l, row);
    BaseBelow(x, l);
    forall e | e in Drawn(x, l, row) ensures Column(e, l.cycle) < l.width {
      ColumnInRow(e.offset, l);
    }
  }

  /** Every row has one cell for each column and one more for each collision. */
  lemma RowLength(x: Inst, l: Layout, row: nat)
    requires l.Valid()
    ensures |Row(x, l, row)| == l.width + Collisions(Drawn(x, l, row), l.cycle)
  {
    var es := Drawn(x, l, row);
    DrawnFacts(x, l, row);
    DrawnColumns(x, l, row);
    MarksLength(es, l.cycle);
    if es != [] {
      assert es[|es| - 1] in es;
    }
  }

  lemma RowMarked(x: Inst, l: Layout, row: nat)
    requires l.Valid()
    ensures Marked(Row(x, l, row)) == StagesOf(Drawn(x, l, row))
  {
    var es := Drawn(x, l, row);
    var dots := Dots(l.width - Position(es, l.cycle));
    MarkedMarks(es, l.cycle);
    MarkedDots(dots);
    MarkedAppend(Marks(es, l.cycle), dots);
  }

  ghost predicate Shows(x: Inst, l: Layout, row: nat, s: Stage)
    requires l.Valid()
  {
    s in l.Stages() && InRow(x, l, row, s) && !Skipped(x, s)
  }

  /** Which stages a row marks, each once. */
  lemma RowMarks(x: Inst, l: Layout, row: nat)
    requires l.Valid()
    ensures NoDuplicates(Marked(Row(x, l, row)))
    ensures forall s :: s in Marked(Row(x, l, row)) <==> Shows(x, l, row, s)
  {
    var es := Drawn(x, l, row);
    DrawnFacts(x, l, row);
    RowMarked(x, l, row);
    var stages := StagesOf(es);
    forall i, j | 0 <= i < j < |stages| ensures stages[i] != stages[j] {
      assert es[i] in es && es[j] in es && es[i] != es[j];
    }
    BaseBelow(x, l);
    forall s ensures s in stages <==> Shows(x, l, row, s) {
      if Shows(x, l, row, s) {
        var e := Event(Tick(x, s) % l.TimeWidth(), s);
        assert e in es;
        var i :| 0 <= i < |es| && es[i] == e;
        assert stages[i] == s;
      }
      if s in stages {
        var i :| 0 <= i < |stages| && stages[i] == s;
        assert es[i] in es;
      }
    }
  }

  // ------------------------------------------------------- each mark in one row

  /** The instruction was fetched, and no stage was reached before the fetch. */
  ghost predicate AfterFetch(x: Inst, l: Layout) {
    x.fetch > 0 && forall s :: s in l.Stages() && Tick(x, s) != 0 ==> Tick(x, s) >= x.fetch
  }

  ghost function RowFor(x: Inst, l: Layout, s: Stage): nat
    requires l.Valid() && Tick(x, s) >= x.fetch
  {
    BaseBelow(x, l);
    if Compact(x, l) then 0 else (Tick(x, s) - BaseTick(x, l)) / l.TimeWidth()
  }

  lemma QuotientBelow(a: nat, b: nat, w: nat)
    requires w > 0 && a <= b
    ensures a / w < b / w + 1
  {
    ColumnMonotone(a, b, w);
  }

  /** A tick lies in the row it is divided into, and in no other. */
  lemma TileUnique(t: nat, base: nat, w: nat, row: nat)
    requires w > 0 && base <= t
    ensures base + row * w <= t < base + row * w + w <==> row == (t - base) / w
  {
    var q := (t - base) / w;
    assert t - base == w * q + (t - base) % w;
    if row < q {
      MulStep(w, row, q);
    } else if q < row {
      MulStep(w, q, row);
    }
  }

  lemma InRowIff(x: Inst, l: Layout, s: Stage, row: nat)
    requires l.Valid() && AfterFetch(x, l) && s in l.Stages() && Tick(x, s) != 0 && row < NumLines(x, l)
    ensures RowFor(x, l, s) < NumLines(x, l)
    ensures InRow(x, l, row, s) <==> row == RowFor(x, l, s)
  {
    BaseBelow(x, l);
    LinesAtLeast(x, l);
    LastIsLast(x, l, s);
    if !Compact(x, l) {
      TileUnique(Tick(x, s), BaseTick(x, l), l.TimeWidth(), row);
      QuotientBelow(Tick(x, s) - BaseTick(x, l), LastEventTime(x, l) - BaseTick(x, l), l.TimeWidth());
    }
  }

  /** Each stage that was reached is marked in exactly one row, once; no other stage is marked. */
  lemma EachStageInOneRow(x: Inst, l: Layout, s: Stage, row: nat)
    requires l.Valid() && AfterFetch(x, l) && row < NumLines(x, l)
    ensures NoDuplicates(Marked(Row(x, l, row)))
    ensures s in Marked(Row(x, l, row)) <==>
            Reached(x, l, s) && row == RowFor(x, l, s)
    ensures s in l.Stages() && Tick(x, s) != 0 ==> RowFor(x, l, s) < NumLines(x, l)
  {
    RowMarks(x, l, row);
    if s in l.Stages() && Tick(x, s) != 0 {
      InRowIff(x, l, s, row);
    }
    assert s in Marked(Row(x, l, row)) <==> Shows(x, l, row, s);
  }

  ghost predicate LastEventIn(x: Inst, l: Layout, row: nat)
    requires l.Valid()
  {
    exists s :: s in l.Stages() && Tick(x, s) == LastEventTime(x, l) && InRow(x, l, row, s)
  }

  /** There is no row too many: the last one holds the last event. */
  lemma LastRowIsNeeded(x: Inst, l: Layout, row: nat)
    requires l.Valid() && AfterFetch(x, l) && row + 1 == NumLines(x, l)
    ensures LastEventIn(x, l, row)
  {
    var s := LastIsReached(x, l);
    LastIsLast(x, l, Fetch);
    assert Tick(x, s) != 0;
    BaseBelow(x, l);
    LinesAtLeast(x, l);
    InRowIff(x, l, s, row);
  }

  /** An instruction that was fetched always prints. */
  lemma FetchedHasEvent(x: Inst, l: Layout)
    requires l.Valid() && AfterFetch(x, l)
    ensures RowEvents(x, l, 0) != []
  {
    BaseBelow(x, l);
    var events := Events(x, l, 0, l.Stages());
    EventsMembers(x, l, 0, l.Stages());
    SortMembers(events, EventLe);
    assert l.Stages()[0] == Fetch;
    assert InRow(x, l, 0, Fetch);
    assert Event(x.fetch % l.TimeWidth(), Fetch) in events;
  }

  // ----------------------------------------------------------- aligned ticks

  ghost predicate Reached(x: Inst, l: Layout, s: Stage) {
    s in l.Stages() && Tick(x, s) != 0 && !Skipped(x, s)
  }

  /** The stages drawn have distinct ticks, all multiples of the cycle time. */
  ghost predicate Aligned(x: Inst, l: Layout)
    requires l.Valid()
  {
    && (forall s :: s in l.Stages() ==> Tick(x, s) % l.cycle == 0)
    && (forall s, t :: Reached(x, l, s) && Reached(x, l, t) && s != t ==> Tick(x, s) != Tick(x, t))
  }

  /** An aligned tick keeps its alignment within the row. */
  lemma AlignedOffset(t: nat, l: Layout)
    requires l.Valid() && l.TimeWidth() > 0 && t % l.cycle == 0
    ensures (t % l.TimeWidth()) == l.cycle * ((t % l.TimeWidth()) / l.cycle)
  {
    var w := l.TimeWidth();
    var q, o, a := t / w, t % w, t / l.cycle;
    assert t == l.cycle * a;
    assert w * q == l.cycle * (l.width * q);
    assert o == l.cycle * (a - l.width * q);
    DivModUnique(o, l.cycle, a - l.width * q, 0);
  }

  ghost predicate SameOffsets(a: nat, b: nat, l: Layout) {
    l.TimeWidth() > 0 && a % l.TimeWidth() == b % l.TimeWidth()
  }

  /** Two ticks of one row with the same offset are the same tick. */
  lemma OffsetDetermines(x: Inst, l: Layout, row: nat, s: Stage, t: Stage)
    requires l.Valid() && AfterFetch(x, l) && row < NumLines(x, l) && s in l.Stages() && t in l.Stages()
    ensures InRow(x, l, row, s) && InRow(x, l, row, t) && SameOffsets(Tick(x, s), Tick(x, t), l) ==>
              Tick(x, s) == Tick(x, t)
  {
    BaseBelow(x, l);
    LinesAtLeast(x, l);
    var w := l.TimeWidth();
    if InRow(x, l, row, s) && InRow(x, l, row, t) && SameOffsets(Tick(x, s), Tick(x, t), l) {
      if Tick(x, s) < Tick(x, t) {
        SameOffset(Tick(x, s), Tick(x, t), w);
      } else if Tick(x, t) < Tick(x, s) {
        SameOffset(Tick(x, t), Tick(x, s), w);
      }
    }
  }

  lemma SameOffset(a: nat, b: nat, w: nat)
    requires w > 0 && a % w == b % w && a < b
    ensures b - a >= w
  {
    assert a == w * (a / w) + a % w && b == w * (b / w) + b % w;
    if a / w < b / w {
      MulStep(w, a / w, b / w);
    } else {
      if b / w < a / w {
        MulStep(w, b / w, a / w);
      }
    }
  }

  lemma {:induction false} NoCollisions(es: seq<Event>, cycle: nat)
    requires cycle > 0
    requires forall i, j :: 0 <= i < j < |es| ==> Column(es[i], cycle) != Column(es[j], cycle)
    ensures Collisions(es, cycle) == 0
  {
    if |es| >= 2 {
      NoCollisions(es[..|es| - 1], cycle);
    }
  }

  lemma AlignedColumns(x: Inst, l: Layout, row: nat, a: Event, b: Event)
    requires l.Valid() && AfterFetch(x, l) && Aligned(x, l) && row < NumLines(x, l)
    ensures a in Drawn(x, l, row) && b in Drawn(x, l, row) && a != b ==> Column(a, l.cycle) != Column(b, l.cycle)
  {
    DrawnFacts(x, l, row);
    BaseBelow(x, l);
    if a in Drawn(x, l, row) && b in Drawn(x, l, row) && a != b {
      AlignedOffset(Tick(x, a.stage), l);
      AlignedOffset(Tick(x, b.stage), l);
      OffsetDetermines(x, l, row, a.stage, b.stage);
    }
  }

  lemma AlignedNoCollisions(x: Inst, l: Layout, row: nat)
    requires l.Valid() && AfterFetch(x, l) && Aligned(x, l) && row < NumLines(x, l)
    ensures forall k: nat :: k <= |Drawn(x, l, row)| ==> Collisions(Drawn(x, l, row)[..k], l.cycle) == 0
  {
    var es := Drawn(x, l, row);
    forall i: nat, j: nat | i < j < |es| ensures Column(es[i], l.cycle) != Column(es[j], l.cycle) {
      DrawnFacts(x, l, row);
      AlignedColumns(x, l, row, es[i], es[j]);
    }
    forall k: nat | k <= |es| ensures Collisions(es[..k], l.cycle) == 0 {
      NoCollisions(es[..k], l.cycle);
    }
  }

  /** With aligned, distinct ticks each row has exactly its width ... */
  lemma AlignedRowLength(x: Inst, l: Layout, row: nat)
    requires l.Valid() && AfterFetch(x, l) && Aligned(x, l) && row < NumLines(x, l)
    ensures |Row(x, l, row)| == l.width
  {
    var es := Drawn(x, l, row);
    AlignedNoCollisions(x, l, row);
    assert es[..|es|] == es;
    RowLength(x, l, row);
  }

  lemma {:induction false} MarkOnLine(es: seq<Event>, k: nat, cycle: nat, width: nat)
    requires cycle > 0 && ByOffset(es) && k < |es| && Collisions(es[..k + 1], cycle) == 0
    ensures var cells := Marks(es, cycle) + Dots(width - Position(es, cycle));
            Column(es[k], cycle) < |cells| && cells[Column(es[k], cycle)] == Mark(es[k].stage)
  {
    MarkPlace(es, k, cycle);
  }

  /** The column of a tick in its row. */
  ghost function ColumnOf(x: Inst, l: Layout, s: Stage): nat
    requires l.Valid()
  {
    BaseBelow(x, l);
    Tick(x, s) % l.TimeWidth() / l.cycle
  }

  lemma DrawnIndex(x: Inst, l: Layout, row: nat, s: Stage) returns (k: nat)
    requires l.Valid() && Shows(x, l, row, s)
    ensures k < |Drawn(x, l, row)|
    ensures Drawn(x, l, row)[k].stage == s && Column(Drawn(x, l, row)[k], l.cycle) == ColumnOf(x, l, s)
  {
    BaseBelow(x, l);
    DrawnFacts(x, l, row);
    var e := Event(Tick(x, s) % l.TimeWidth(), s);
    assert e in Drawn(x, l, row);
    k :| 0 <= k < |Drawn(x, l, row)| && Drawn(x, l, row)[k] == e;
  }

  /** ... and each mark stands in the column of its tick. */
  lemma AlignedRowColumns(x: Inst, l: Layout, row: nat, s: Stage)
    requires l.Valid() && AfterFetch(x, l) && Aligned(x, l) && row < NumLines(x, l) && Shows(x, l, row, s)
    ensures ColumnOf(x, l, s) < |Row(x, l, row)| && Row(x, l, row)[ColumnOf(x, l, s)] == Mark(s)
  {
    var k := DrawnIndex(x, l, row, s);
    assert ByOffset(Drawn(x, l, row)) && Collisions(Drawn(x, l, row)[..k + 1], l.cycle) == 0 by {
      DrawnFacts(x, l, row);
      AlignedNoCollisions(x, l, row);
    }
    MarkOnLine(Drawn(x, l, row), k, l.cycle, l.width);
  }
}
