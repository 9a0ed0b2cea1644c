/**
 `find_copyrights.py`: `datestr` prints a set of years as ranges, `process_dates`
 reads a list of years and ranges into a set.
 */
module CopyrightYears {
  import opened Sets
  import opened Sorting
  import opened Text

  datatype Range = Range(first: nat, last: nat) {
    predicate Has(y: int) { first <= y <= last }
  }

  predicate YearLe(a: nat, b: nat) {
    a <= b
  }

  // -------------------------------------------------------------------- datestr

  /** One more year: the last run grows by it, or it begins a new run. */
  function Grown(r: seq<Range>, y: nat): seq<Range> {
    if r != [] && y == r[|r| - 1].last + 1 then r[..|r| - 1] + [Range(r[|r| - 1].first, y)]
    else r + [Range(y, y)]
  }

  /** The maximal runs of consecutive years in a sorted list. */
  function Runs(s: seq<nat>): (r: seq<Range>)
    ensures s != [] ==> r != [] && r[|r| - 1].last == s[|s| - 1]
  {
    if s == [] then [] else Grown(Runs(s[..|s| - 1]), s[|s| - 1])
  }

  function RangeText(r: Range): string {
    if r.first == r.last then Str(r.first) else Str(r.first) + "-" + Str(r.last)
  }

  function Texts(rs: seq<Range>): seq<string> {
    seq(|rs|, i requires 0 <= i < |rs| => RangeText(rs[i]))
  }

  function DateText(years: seq<nat>): string {
    Join(Texts(Runs(Sort(years, YearLe))), ',')
  }

  /** The years in the order the set yields them; there has to be one. */
  method DateStr(years: seq<nat>) returns (text: Option<string>)
    ensures text == if years == [] then None else Some(DateText(years))
  {
    var dates := Sort(years, YearLe);
    if dates == [] {
      return None;
    }
    ghost var whole := dates;
    var output: seq<Range> := [];
    var first, second := dates[0], dates[0];
    dates := dates[1..];
    ghost var k := 1;
    assert whole[..1] == [first];
    assert whole[..1][..0] == [];
    while dates != []
      invariant 1 <= k <= |whole| && dates == whole[k..]
      invariant output + [Range(first, second)] == Runs(whole[..k])
      decreases |dates|
    {
      var next := dates[0];
      dates := dates[1..];
      assert Runs(whole[..k + 1]) == Grown(Runs(whole[..k]), next) by {
        assert whole[..k + 1][..k] == whole[..k];
      }
      k := k + 1;
      if next == second + 1 {
        second := next;
      } else {
        output := output + [Range(first, second)];
        first, second := next, next;
      }
    }
    assert whole[..k] == whole;
    output := output + [Range(first, second)];
    text := Some(Join(Texts(output), ','));
  }

  // -------------------------------------------------------------- process_dates

  /** The number in the first four characters. */
  function FourDigits(s: string): Option<nat> {
    if |s| >= 4 && AllDigits(s[..4]) then Some(Value(s[..4])) else None
  }

  /** `([0-9]{4})\s*-\s*([0-9]{4})` at the beginning of the text. */
  function MatchRange(s: string): Option<Range> {
    var f := FourDigits(s);
    if f.None? then None else
    var t := LStrip(s[4..]);
    if t == [] || t[0] != '-' then None else
    var l := FourDigits(LStrip(t[1..]));
    if l.None? then None else Some(Range(f.value, l.value))
  }

  /** The years one entry stands for; an entry that is not understood stands for none. */
  predicate StandsFor(entry: string, y: int) {
    var m := MatchRange(Strip(entry));
    if m.Some? then m.value.Has(y) else PyInt(Strip(entry)) == Some(y)
  }

  /** Some entry of the list stands for the year. */
  ghost predicate Listed(entries: seq<string>, y: int) {
    ListedBelow(entries, |entries|, y)
  }

  ghost predicate ListedBelow(entries: seq<string>, n: nat, y: int)
    requires n <= |entries|
  {
    exists k :: 0 <= k < n && StandsFor(entries[k], y)
  }

  /** Lines 107-108. */
  method AddRange(years: set<int>, r: Range) returns (output: set<int>)
    ensures forall y :: y in output <==> y in years || r.Has(y)
  {
    output := years;
    var j: int := r.first;
    while j < r.last + 1
      invariant r.first <= j && (j <= r.last + 1 || j == r.first)
      invariant forall y :: y in output <==> y in years || (r.Has(y) && y < j)
    {
      output := output + {j};
      j := j + 1;
    }
  }

  /** Lines 103-114: one entry. */
  method AddEntry(years: set<int>, entry: string) returns (output: set<int>)
    ensures forall y :: y in output <==> y in years || StandsFor(entry, y)
  {
    var date := Strip(entry);
    var m := MatchRange(date);
    if m.Some? {
      output := AddRange(years, m.value);
    } else {
      var y := PyInt(date);
      output := if y.Some? then years + {y.value} else years;
    }
  }

  method ProcessDates(text: string) returns (output: set<int>)
    ensures forall y :: y in output <==> Listed(Split(text, ','), y)
  {
    var dates := Split(text, ',');
    output := {};
    for i := 0 to |dates|
      invariant forall y :: y in output <==> ListedBelow(dates, i, y)
    {
      output := AddEntry(output, dates[i]);
    }
  }

  // -------------------------------------------------------------------- the runs

  ghost predicate Increasing(s: seq<nat>) {
    forall i, j :: 0 <= i < j < |s| ==> s[i] < s[j]
  }

  /** The ranges cover exactly the years of the set. */
  ghost predicate Covers(rs: seq<Range>, years: iset<int>) {
    forall y: int :: y in years <==> InSome(rs, y)
  }

  ghost predicate InSome(rs: seq<Range>, y: int) {
    exists k :: 0 <= k < |rs| && rs[k].Has(y)
  }

  ghost predicate NonEmpty(rs: seq<Range>) {
    forall k :: 0 <= k < |rs| ==> rs[k].first <= rs[k].last
  }

  /** Ascending, none empty, and between two ranges at least one year is missing. */
  ghost predicate Separated(rs: seq<Range>) {
    && NonEmpty(rs)
    && (forall i, j :: 0 <= i < j < |rs| ==> rs[i].last + 1 < rs[j].first)
  }

  lemma InSomeSnoc(rs: seq<Range>, r: Range, y: int)
    ensures InSome(rs + [r], y) <==> InSome(rs, y) || r.Has(y)
  {
    var all := rs + [r];
    if InSome(rs, y) {
      var k :| 0 <= k < |rs| && rs[k].Has(y);
      assert all[k].Has(y);
    }
    if r.Has(y) {
      assert all[|rs|].Has(y);
    }
  }

  lemma GrownCovers(r: seq<Range>, x: nat, y: int)
    requires r != [] ==> r[|r| - 1].first <= r[|r| - 1].last
    ensures InSome(Grown(r, x), y) <==> InSome(r, y) || y == x
  {
    if r != [] && x == r[|r| - 1].last + 1 {
      var front, last := r[..|r| - 1], r[|r| - 1];
      assert r == front + [last];
      InSomeSnoc(front, last, y);
      InSomeSnoc(front, Range(last.first, x), y);
    } else {
      InSomeSnoc(r, Range(x, x), y);
    }
  }

  lemma {:induction false} RunsCover(s: seq<nat>, y: int)
    ensures InSome(Runs(s), y) <==> y in s
  {
    if s != [] {
      var n := |s| - 1;
      RunsNonEmpty(s[..n]);
      RunsCover(s[..n], y);
      GrownCovers(Runs(s[..n]), s[n], y);
      assert s == s[..n] + [s[n]];
    }
  }

  lemma GrownNonEmpty(r: seq<Range>, x: nat)
    requires NonEmpty(r)
    ensures NonEmpty(Grown(r, x))
  {
  }

  lemma {:induction false} RunsNonEmpty(s: seq<nat>)
    ensures NonEmpty(Runs(s))
  {
    if s != [] {
      RunsNonEmpty(s[..|s| - 1]);
      GrownNonEmpty(Runs(s[..|s| - 1]), s[|s| - 1]);
    }
  }

  lemma GrownSeparated(r: seq<Range>, x: nat)
    requires Separated(r) && (r != [] ==> r[|r| - 1].last < x)
    ensures Separated(Grown(r, x))
  {
    var after := Grown(r, x);
    forall i, j | 0 <= i < j < |after| ensures after[i].last + 1 < after[j].first {
      if j < |r| {
        assert r[i].last + 1 < r[j].first;
      } else if i < |r| - 1 {
        assert r[i].last + 1 < r[|r| - 1].first;
      }
    }
  }

  lemma {:induction false} RunsSeparated(s: seq<nat>)
    requires Increasing(s)
    ensures Separated(Runs(s))
  {
    if s != [] {
      var n := |s| - 1;
      RunsSeparated(s[..n]);
      assert n > 0 ==> s[..n][n - 1] < s[n];
      GrownSeparated(Runs(s[..n]), s[n]);
    }
  }

  lemma {:induction false} SortIncreasing(years: seq<nat>)
    requires NoDuplicates(years)
    ensures Increasing(Sort(years, YearLe))
  {
    SortSorted(years, YearLe);
    SortNoDuplicates(years, YearLe);
    var s := Sort(years, YearLe);
    forall i, j | 0 <= i < j < |s| ensures s[i] < s[j] {
      assert YearLe(s[i], s[j]);
    }
  }

  ghost function YearSet(years: seq<nat>): iset<int> {
    iset y: int | y in years
  }

  /** The ranges printed for a set of years cover it, in order, and are as long as they can be. */
  lemma {:induction false} DateRuns(years: seq<nat>)
    requires NoDuplicates(years)
    ensures Separated(Runs(Sort(years, YearLe))) && Covers(Runs(Sort(years, YearLe)), YearSet(years))
  {
    var s := Sort(years, YearLe);
    SortIncreasing(years);
    RunsSeparated(s);
    SortMembers(years, YearLe);
    forall y: int ensures y in YearSet(years) <==> InSome(Runs(s), y) {
      RunsCover(s, y);
    }
  }

  lemma SeparatedUniqueRange(rs: seq<Range>, i: nat, j: nat, y: int)
    requires Separated(rs) && i < |rs| && j < |rs| && rs[i].Has(y) && rs[j].Has(y)
    ensures i == j
  {
  }

  /** The year before a range of a separated cover is missing. */
  lemma GapBefore(rs: seq<Range>, years: iset<int>, k: nat)
    requires Separated(rs) && Covers(rs, years) && k < |rs|
    ensures rs[k].first in years && rs[k].first - 1 !in years
  {
    assert rs[k].Has(rs[k].first);
    forall j | 0 <= j < |rs| ensures !rs[j].Has(rs[k].first - 1) {
      assert j < k ==> rs[j].last + 1 < rs[k].first;
      assert k < j ==> rs[k].last + 1 < rs[j].first;
    }
  }

  /** A cover has a range that starts where a separated cover has one. */
  lemma StartsThere(rs: seq<Range>, other: seq<Range>, years: iset<int>, k: nat) returns (j: nat)
    requires Separated(rs) && Covers(rs, years) && Covers(other, years) && k < |rs|
    ensures j < |other| && other[j].first == rs[k].first
  {
    var f: int := rs[k].first;
    GapBefore(rs, years, k);
    assert InSome(other, f) && !InSome(other, f - 1);
    j :| 0 <= j < |other| && other[j].Has(f);
    assert !other[j].Has(f - 1);
  }

  ghost function Firsts(rs: seq<Range>): set<nat> {
    set k | 0 <= k < |rs| :: rs[k].first
  }

  lemma {:induction false} FirstsCard(rs: seq<Range>)
    ensures |Firsts(rs)| <= |rs|
    ensures Separated(rs) ==> |Firsts(rs)| == |rs|
  {
    if rs != [] {
      var n := |rs| - 1;
      FirstsCard(rs[..n]);
      assert Firsts(rs) == Firsts(rs[..n]) + {rs[n].first};
      if Separated(rs) {
        assert rs[n].first !in Firsts(rs[..n]);
      }
    }
  }

  /** No list of ranges for the same years is shorter. */
  lemma FewestRanges(rs: seq<Range>, other: seq<Range>, years: iset<int>)
    requires Separated(rs) && Covers(rs, years) && Covers(other, years)
    ensures |rs| <= |other|
  {
    FirstsCard(rs);
    FirstsCard(other);
    forall f | f in Firsts(rs) ensures f in Firsts(other) {
      var k :| 0 <= k < |rs| && rs[k].first == f;
      var j := StartsThere(rs, other, years, k);
    }
    SubsetCard(Firsts(rs), Firsts(other));
  }

  lemma LastOfCover(rs: seq<Range>, y: int)
    requires Separated(rs) && rs != [] && InSome(rs, y)
    ensures y <= rs[|rs| - 1].last
  {
    var k :| 0 <= k < |rs| && rs[k].Has(y);
    assert k < |rs| - 1 ==> rs[k].last + 1 < rs[|rs| - 1].first;
  }

  lemma SameLastRange(rs: seq<Range>, other: seq<Range>, years: iset<int>)
    requires Separated(rs) && Separated(other) && Covers(rs, years) && Covers(other, years) && rs != [] && other != []
    ensures rs[|rs| - 1] == other[|other| - 1]
  {
    var a, b := rs[|rs| - 1], other[|other| - 1];
    assert a.Has(a.last) && b.Has(b.last);
    assert InSome(rs, a.last) && InSome(other, b.last);
    LastOfCover(other, a.last);
    LastOfCover(rs, b.last);
    GapBefore(rs, years, |rs| - 1);
    GapBefore(other, years, |other| - 1);
    assert a.first < b.first ==> a.Has(b.first - 1) && InSome(rs, b.first - 1);
    assert b.first < a.first ==> b.Has(a.first - 1) && InSome(other, a.first - 1);
  }

  lemma DropLastCovers(rs: seq<Range>, years: iset<int>)
    requires Separated(rs) && Covers(rs, years) && rs != []
    ensures Separated(rs[..|rs| - 1])
    ensures Covers(rs[..|rs| - 1], iset y | y in years && !rs[|rs| - 1].Has(y))
  {
    var init, last := rs[..|rs| - 1], rs[|rs| - 1];
    assert rs == init + [last];
    forall y: int ensures y in years && !last.Has(y) <==> InSome(init, y) {
      DropLastMember(rs, y);
      assert y in years <==> InSome(rs, y);
    }
  }

  lemma DropLastMember(rs: seq<Range>, y: int)
    requires Separated(rs) && rs != []
    ensures InSome(rs, y) && !rs[|rs| - 1].Has(y) <==> InSome(rs[..|rs| - 1], y)
  {
    var init, last := rs[..|rs| - 1], rs[|rs| - 1];
    assert rs == init + [last];
    InSomeSnoc(init, last, y);
    if InSome(init, y) {
      var k :| 0 <= k < |init| && init[k].Has(y);
      assert rs[k].last + 1 < last.first;
    }
  }

  /** There is only one such list of ranges for a set of years. */
  lemma {:induction false} RangesCanonical(rs: seq<Range>, other: seq<Range>, years: iset<int>)
    requires Separated(rs) && Separated(other) && Covers(rs, years) && Covers(other, years)
    ensures rs == other
  {
    FewestRanges(rs, other, years);
    FewestRanges(other, rs, years);
    if rs != [] {
      SameLastRange(rs, other, years);
      DropLastCovers(rs, years);
      DropLastCovers(other, years);
      RangesCanonical(rs[..|rs| - 1], other[..|other| - 1], iset y | y in years && !rs[|rs| - 1].Has(y));
      assert rs == rs[..|rs| - 1] + [rs[|rs| - 1]] && other == other[..|other| - 1] + [other[|other| - 1]];
    }
  }

  /** The text does not depend on the order in which the set yields its years. */
  lemma TextCanonical(years: seq<nat>, same: seq<nat>)
    requires NoDuplicates(years) && NoDuplicates(same) && YearSet(years) == YearSet(same)
    ensures DateText(years) == DateText(same)
  {
    DateRuns(years);
    DateRuns(same);
    RangesCanonical(Runs(Sort(years, YearLe)), Runs(Sort(same, YearLe)), YearSet(years));
  }

  // -------------------------------------------------------------- the round trip

  lemma {:induction false} FourDigitNumbers(n: nat)
    ensures |Str(n)| == 4 <==> 1000 <= n <= 9999
    ensures |Str(n)| < 4 <==> n < 1000
  {
    assert |Str(n)| == if n < 10 then 1 else |Str(n / 10)| + 1;
    var a := n / 10;
    assert |Str(a)| == if a < 10 then 1 else |Str(a / 10)| + 1;
    var b := a / 10;
    assert |Str(b)| == if b < 10 then 1 else |Str(b / 10)| + 1;
    var c := b / 10;
    assert |Str(c)| == if c < 10 then 1 else |Str(c / 10)| + 1;
  }

  /** A single year is read as itself. */
  lemma {:induction false} SingleYear(n: nat, y: int)
    ensures StandsFor(Str(n), y) <==> y == n
  {
    StripNothing(Str(n));
    PyIntStr(n);
    DigitsAreNoRange(Str(n));
  }

  lemma DigitsAreNoRange(s: string)
    requires AllDigits(s)
    ensures MatchRange(s) == None
  {
    if |s| >= 4 {
      var t := LStrip(s[4..]);
      LStripKeeps(s[4..]);
      assert t != [] ==> t[0] in s[4..];
    }
  }

  lemma {:induction false} LStripKeeps(s: string)
    ensures forall c :: c in LStrip(s) ==> c in s
  {
    if s != [] && IsSpace(s[0]) {
      LStripKeeps(s[1..]);
    }
  }

  /** The range is written with four digits on both sides. */
  predicate Readable(r: Range) {
    1000 <= r.first && r.last <= 9999
  }

  lemma {:induction false} FourDigitsOf(s: string, rest: string)
    requires AllDigits(s) && |s| == 4
    ensures FourDigits(s + rest) == Some(Value(s))
  {
    assert (s + rest)[..4] == s;
  }

  lemma ReadableRange(r: Range)
    requires r.first < r.last && Readable(r)
    ensures MatchRange(RangeText(r)) == Some(r)
  {
    var f, l := Str(r.first), Str(r.last);
    FourDigitNumbers(r.first);
    FourDigitNumbers(r.last);
    var s := f + "-" + l;
    FourDigitsOf(f, "-" + l);
    assert s == f + ("-" + l);
    assert s[4..] == "-" + l;
    assert LStrip("-" + l) == "-" + l;
    assert ("-" + l)[1..] == l && LStrip(l) == l;
    FourDigitsOf(l, "");
    assert l + "" == l;
    ValueStr(r.first);
    ValueStr(r.last);
  }

  /** A range that is not written so is read short of its last year, or not at all. */
  lemma UnreadableRange(r: Range)
    requires r.first < r.last && !Readable(r)
    ensures var m := MatchRange(RangeText(r)); m.Some? ==> m.value.first == r.first && m.value.last < r.last
  {
    var f, l := Str(r.first), Str(r.last);
    var s := f + "-" + l;
    FourDigitNumbers(r.first);
    FourDigitNumbers(r.last);
    if |f| < 4 {
      assert |s| >= 4 ==> s[..4][|f|] == '-';
    } else if |f| > 4 {
      assert s[4] == f[4] && s[4..][0] == f[4];
    } else {
      assert s[..4] == f;
      ValueStr(r.first);
      var m := MatchRange(s);
      if m.Some? {
        var t := LStrip(LStrip(s[4..])[1..]);
        FourDigitsBound(t[..4]);
      }
    }
  }

  lemma {:induction false} FourDigitsBound(s: string)
    requires |s| == 4 && AllDigits(s)
    ensures Value(s) <= 9999
  {
    var a, b, c := s[..3], s[..2], s[..1];
    assert a[..2] == b && b[..1] == c && c[..0] == [];
    assert Value(c) <= 9;
    assert Value(b) <= 99;
    assert Value(a) <= 999;
  }

  lemma RangeTextEnds(r: Range)
    ensures Strip(RangeText(r)) == RangeText(r) && ',' !in RangeText(r)
    ensures r.first < r.last ==> PyInt(RangeText(r)) == None
  {
    var s := RangeText(r);
    assert IsDigit(s[0]) && IsDigit(s[|s| - 1]);
    StripNothing(s);
    if r.first < r.last {
      assert s[|Str(r.first)|] == '-';
    }
  }

  /** The years read from the text of a range: all of them, or not the last. */
  lemma RangeReadBack(r: Range, y: int)
    requires r.first <= r.last
    ensures StandsFor(RangeText(r), y) ==> r.Has(y)
    ensures r.first == r.last || Readable(r) ==> (StandsFor(RangeText(r), y) <==> r.Has(y))
    ensures r.first < r.last && !Readable(r) ==> !StandsFor(RangeText(r), r.last)
  {
    RangeTextEnds(r);
    if r.first == r.last {
      SingleYear(r.first, y);
    } else if Readable(r) {
      ReadableRange(r);
    } else {
      UnreadableRange(r);
    }
  }

  lemma TextEntries(rs: seq<Range>)
    requires rs != []
    ensures Split(Join(Texts(rs), ','), ',') == Texts(rs)
  {
    forall i: nat | i < |rs| ensures ',' !in Texts(rs)[i] {
      RangeTextEnds(rs[i]);
    }
    SplitJoin(Texts(rs), ',');
  }

  /** Where two consecutive years are in the set, both have four digits. */
  ghost predicate FourDigitNeighbours(years: seq<nat>) {
    forall y :: y in years && y + 1 in years ==> 1000 <= y && y + 1 <= 9999
  }

  lemma RangesReadable(rs: seq<Range>, years: seq<nat>)
    requires Separated(rs) && Covers(rs, YearSet(years))
    ensures FourDigitNeighbours(years) <==> forall k :: 0 <= k < |rs| && rs[k].first < rs[k].last ==> Readable(rs[k])
  {
    if FourDigitNeighbours(years) {
      forall k | 0 <= k < |rs| && rs[k].first < rs[k].last ensures Readable(rs[k]) {
        var f, l := rs[k].first, rs[k].last;
        assert rs[k].Has(f) && rs[k].Has(f + 1) && rs[k].Has(l - 1) && rs[k].Has(l);
        assert InSome(rs, f) && InSome(rs, f + 1) && InSome(rs, l - 1) && InSome(rs, l);
        assert f in years && f + 1 in years;
        assert l - 1 in years && (l - 1) + 1 in years;
      }
    }
    if forall k :: 0 <= k < |rs| && rs[k].first < rs[k].last ==> Readable(rs[k]) {
      forall y | y in years && y + 1 in years ensures 1000 <= y && y + 1 <= 9999 {
        assert InSome(rs, y) && InSome(rs, y + 1);
        var i :| 0 <= i < |rs| && rs[i].Has(y);
        var j :| 0 <= j < |rs| && rs[j].Has(y + 1);
        assert i == j;
      }
    }
  }

  lemma RangesReadBack(rs: seq<Range>, y: int)
    requires Separated(rs)
    ensures Listed(Texts(rs), y) ==> InSome(rs, y)
    ensures (forall k :: 0 <= k < |rs| && rs[k].first < rs[k].last ==> Readable(rs[k])) && InSome(rs, y) ==>
              Listed(Texts(rs), y)
  {
    if Listed(Texts(rs), y) {
      var k :| 0 <= k < |rs| && StandsFor(Texts(rs)[k], y);
      RangeReadBack(rs[k], y);
      assert rs[k].Has(y);
    }
    if InSome(rs, y) && forall k :: 0 <= k < |rs| && rs[k].first < rs[k].last ==> Readable(rs[k]) {
      var k :| 0 <= k < |rs| && rs[k].Has(y);
      RangeReadBack(rs[k], y);
      assert StandsFor(Texts(rs)[k], y);
    }
  }

  lemma UnreadableLosesLast(rs: seq<Range>, k: nat)
    requires Separated(rs) && k < |rs| && rs[k].first < rs[k].last && !Readable(rs[k])
    ensures InSome(rs, rs[k].last) && !Listed(Texts(rs), rs[k].last)
  {
    var y := rs[k].last;
    assert rs[k].Has(y);
    forall j | 0 <= j < |rs| ensures !StandsFor(Texts(rs)[j], y) {
      RangeReadBack(rs[j], y);
      if j != k && rs[j].Has(y) {
        SeparatedUniqueRange(rs, j, k, y);
      }
    }
  }

  /**
   Reading the text of a set of years gives the set back exactly when no two
   consecutive years of it are written with other than four digits.
   */
  lemma YearsReadBackIff(years: seq<nat>)
    requires years != [] && NoDuplicates(years)
    ensures (forall y: int :: Listed(Split(DateText(years), ','), y) <==> y in YearSet(years)) <==>
            FourDigitNeighbours(years)
  {
    var rs := Runs(Sort(years, YearLe));
    DateRuns(years);
    TextEntries(rs);
    RangesReadable(rs, years);
    if FourDigitNeighbours(years) {
      forall y: int ensures Listed(Texts(rs), y) <==> y in YearSet(years) {
        RangesReadBack(rs, y);
      }
    } else {
      var k: nat :| k < |rs| && rs[k].first < rs[k].last && !Readable(rs[k]);
      UnreadableLosesLast(rs, k);
    }
  }
}
