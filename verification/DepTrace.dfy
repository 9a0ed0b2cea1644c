/**
 The text form of an instruction dependency trace: the line that
 `decode_inst_dep_trace.py` prints for a record and the record that
 `encode_inst_dep_trace.py` reads from a line.
 */
module DepTrace {
  import opened Arith
  import opened Text

  datatype Kind = INVALID | LOAD | STORE | COMP

  datatype Record = Record(
    seqNum: nat, pc: Option<nat>, weight: Option<nat>, kind: Kind,
    pAddr: Option<nat>, size: Option<nat>, flags: Option<nat>, compDelay: nat,
    robDep: seq<nat>, regDep: seq<nat>)

  const TWO_64: nat := 0x1_0000_0000_0000_0000

  predicate Fits(v: Option<nat>, bound: nat) {
    v.Some? ==> v.value < bound
  }

  /** The fields keep to their types in `inst_dep_record.proto`. */
  ghost predicate InRange(r: Record) {
    && r.seqNum < TWO_64 && Fits(r.pc, TWO_64) && Fits(r.weight, TWO_32)
    && Fits(r.pAddr, TWO_64) && Fits(r.size, TWO_32) && Fits(r.flags, TWO_32) && r.compDelay < TWO_64
    && (forall i :: 0 <= i < |r.robDep| ==> r.robDep[i] < TWO_64)
    && (forall i :: 0 <= i < |r.regDep| ==> r.regDep[i] < TWO_64)
  }

  function KindName(k: Kind): string {
    match k
    case INVALID => "INVALID" case LOAD => "LOAD" case STORE => "STORE" case COMP => "COMP"
  }

  function KindNamed(s: string): Option<Kind> {
    if s == "INVALID" then Some(INVALID) else if s == "LOAD" then Some(LOAD)
    else if s == "STORE" then Some(STORE) else if s == "COMP" then Some(COMP) else None
  }

  // -------------------------------------------------------------------- printing

  function OrElse(v: Option<nat>, default: nat): nat {
    if v.Some? then v.value else default
  }

  function Optional(v: Option<nat>): seq<string> {
    if v.Some? then [Str(v.value)] else []
  }

  /** The comma-separated fields in front of the first colon. */
  function Fields(r: Record): seq<string> {
    Head(r) + Optional(r.pAddr) + Optional(r.size) + Optional(r.flags) + [Str(r.compDelay)]
  }

  function Head(r: Record): seq<string> {
    [Str(r.seqNum), Str(OrElse(r.pc, 0)), Str(OrElse(r.weight, 1)), KindName(r.kind)]
  }

  function Strs(deps: seq<nat>): seq<string> {
    seq(|deps|, i requires 0 <= i < |deps| => Str(deps[i]))
  }

  /** Each dependency behind a comma. */
  function DepText(deps: seq<nat>): string {
    Join([""] + Strs(deps), ',')
  }

  function Line(r: Record): string {
    Join([Join(Fields(r), ','), DepText(r.robDep), DepText(r.regDep)], ':') + "\n"
  }

  function PrintAll(rs: seq<Record>): string {
    if rs == [] then "" else PrintAll(rs[..|rs| - 1]) + Line(rs[|rs| - 1])
  }

  lemma {:induction false} JoinSnoc(parts: seq<string>, last: string, sep: char)
    requires parts != []
    ensures Join(parts + [last], sep) == Join(parts, sep) + [sep] + last
  {
    assert (parts + [last])[..|parts|] == parts;
  }

  /** Lines 192-195 and 198-201. */
  method PrintDeps(deps: seq<nat>) returns (out: string)
    ensures out == DepText(deps)
  {
    out := "";
    if |deps| > 0 {
      for i := 0 to |deps|
        invariant out == DepText(deps[..i])
      {
        JoinSnoc([""] + Strs(deps[..i]), Str(deps[i]), ',');
        assert [""] + Strs(deps[..i + 1]) == [""] + Strs(deps[..i]) + [Str(deps[i])];
        out := out + "," + Str(deps[i]);
      }
      assert deps[..|deps|] == deps;
    }
  }

  /** A further field behind a comma. */
  method AppendField(out: string, field: string, ghost fields: seq<string>) returns (out': string)
    requires fields != [] && out == Join(fields, ',')
    ensures out' == Join(fields + [field], ',')
  {
    JoinSnoc(fields, field, ',');
    assert "," == [','];
    out' := out + "," + field;
  }

  method AppendOptional(out: string, v: Option<nat>, ghost fields: seq<string>) returns (out': string)
    requires fields != [] && out == Join(fields, ',')
    ensures out' == Join(fields + Optional(v), ',')
  {
    if v.Some? {
      out' := AppendField(out, Str(v.value), fields);
    } else {
      assert fields + [] == fields;
      out' := out;
    }
  }

  /** Lines 157-175. */
  method PrintHead(r: Record) returns (out: string)
    ensures out == Join(Head(r), ',')
  {
    var seqNum, pc, weight, name := Str(r.seqNum), Str(OrElse(r.pc, 0)), Str(OrElse(r.weight, 1)), KindName(r.kind);
    out := seqNum;
    out := AppendField(out, pc, [seqNum]);
    assert [seqNum] + [pc] == [seqNum, pc];
    out := AppendField(out, weight, [seqNum, pc]);
    assert [seqNum, pc] + [weight] == [seqNum, pc, weight];
    out := AppendField(out, name, [seqNum, pc, weight]);
    assert [seqNum, pc, weight] + [name] == Head(r);
  }

  /** Lines 157-188. */
  method PrintFields(r: Record) returns (out: string)
    ensures out == Join(Fields(r), ',')
  {
    out := PrintHead(r);
    out := AppendOptional(out, r.pAddr, Head(r));
    out := AppendOptional(out, r.size, Head(r) + Optional(r.pAddr));
    out := AppendOptional(out, r.flags, Head(r) + Optional(r.pAddr) + Optional(r.size));
    out := AppendField(out, Str(r.compDelay), Head(r) + Optional(r.pAddr) + Optional(r.size) + Optional(r.flags));
  }

  lemma {:induction false} JoinThree(a: string, b: string, c: string, sep: char)
    ensures Join([a, b, c], sep) == a + [sep] + b + [sep] + c
  {
    JoinSnoc([a], b, sep);
    JoinSnoc([a, b], c, sep);
    assert [a, b] == [a] + [b] && [a, b, c] == [a, b] + [c];
  }

  /** Lines 157-203: one record. */
  method PrintLine(r: Record) returns (line: string)
    ensures line == Line(r)
  {
    var fields := PrintFields(r);
    var rob := PrintDeps(r.robDep);
    var reg := PrintDeps(r.regDep);
    JoinThree(fields, rob, reg, ':');
    line := fields + ":" + rob + ":" + reg + "\n";
  }

  function CountDeps(rs: seq<Record>, rob: bool): nat {
    if rs == [] then 0
    else
      var r := rs[|rs| - 1];
      CountDeps(rs[..|rs| - 1], rob) + if (if rob then r.robDep else r.regDep) != [] then 1 else 0
  }

  /** Lines 148-203, with the three counts the script reports. */
  method PrintTrace(rs: seq<Record>) returns (out: string, packets: nat, regdeps: nat, robdeps: nat)
    ensures out == PrintAll(rs)
    ensures packets == |rs| && regdeps == CountDeps(rs, false) && robdeps == CountDeps(rs, true)
  {
    out, packets, regdeps, robdeps := "", 0, 0, 0;
    for i := 0 to |rs|
      invariant out == PrintAll(rs[..i]) && packets == i
      invariant regdeps == CountDeps(rs[..i], false) && robdeps == CountDeps(rs[..i], true)
    {
      assert rs[..i + 1][..i] == rs[..i];
      var r := rs[i];
      packets := packets + 1;
      var line := PrintLine(r);
      if r.robDep != [] {
        robdeps := robdeps + 1;
      }
      if r.regDep != [] {
        regdeps := regdeps + 1;
      }
      out := out + line;
    }
    assert rs[..|rs|] == rs;
  }

  // --------------------------------------------------------------------- parsing

  /** `long(s)` put into a field: text that is no number, or does not fit the field, is an error. */
  function Field(s: string, bound: nat): Option<nat> {
    var v := PyInt(s);
    if v.Some? && 0 <= v.value < bound then Some(v.value) else None
  }

  /** The dependencies in a list of texts, of which the empty ones are passed over. */
  function ParseDeps(parts: seq<string>): Option<seq<nat>> {
    if parts == [] then Some([]) else AddDep(ParseDeps(parts[..|parts| - 1]), parts[|parts| - 1])
  }

  function AddDep(before: Option<seq<nat>>, part: string): Option<seq<nat>> {
    if before.None? || part == "" then before
    else
      var v := Field(part, TWO_64);
      if v.None? then None else Some(before.value + [v.value])
  }

  /** The fields in front of the first colon, as a record without dependencies. */
  function ParseInfo(info: seq<string>): Option<Record> {
    if |info| < 5 then None else
    var seqNum, pc, weight := Field(info[0], TWO_64), Field(info[1], TWO_64), Field(info[2], TWO_32);
    var kind := KindNamed(info[3]);
    if seqNum.None? || pc.None? || weight.None? || kind.None? || kind.value.INVALID? then None
    else if kind.value.LOAD? || kind.value.STORE? then
      if |info| < 8 then None else
      var pAddr, size, flags := Field(info[4], TWO_64), Field(info[5], TWO_32), Field(info[6], TWO_32);
      var delay := Field(info[7], TWO_64);
      if pAddr.None? || size.None? || flags.None? || delay.None? then None
      else Some(Record(seqNum.value, pc, weight, kind.value, pAddr, size, flags, delay.value, [], []))
    else
      var delay := Field(info[4], TWO_64);
      if delay.None? then None
      else Some(Record(seqNum.value, pc, weight, kind.value, None, None, None, delay.value, [], []))
  }

  function ParseLine(line: string): Option<Record> {
    var cols := Split(Strip(line), ':');
    if |cols| != 3 then None else
    var record := ParseInfo(Split(cols[0], ','));
    var rob, reg := ParseDeps(Split(Strip(cols[1]), ',')), ParseDeps(Split(cols[2], ','));
    if record.None? || rob.None? || reg.None? then None
    else Some(record.value.(robDep := rob.value, regDep := reg.value))
  }

  /** `for line in file`: each line keeps its line feed. */
  function ReadLines(text: string): (lines: seq<string>)
    ensures text != "" ==> lines != []
  {
    if text == "" then [] else Glue(text[0], ReadLines(text[1..]))
  }

  /** The lines with one more character in front. */
  function Glue(c: char, lines: seq<string>): (r: seq<string>)
    ensures r != []
  {
    if c == '\n' || lines == [] then [[c]] + lines else [[c] + lines[0]] + lines[1..]
  }

  function ParseAll(lines: seq<string>): Option<seq<Record>> {
    Traverse(ParseLine, lines)
  }

  /** Lines 181-192: a list of dependencies. */
  method ReadDeps(parts: seq<string>) returns (deps: Option<seq<nat>>)
    ensures deps == ParseDeps(parts)
  {
    var ds: seq<nat> := [];
    for i := 0 to |parts|
      invariant ParseDeps(parts[..i]) == Some(ds)
    {
      assert ParseDeps(parts[..i + 1]) == AddDep(Some(ds), parts[i]) by {
        assert parts[..i + 1][..i] == parts[..i];
      }
      if parts[i] != "" {
        var v := Field(parts[i], TWO_64);
        if v.None? {
          DepsStuck(parts, i + 1);
          return None;
        }
        ds := ds + [v.value];
      }
    }
    assert parts[..|parts|] == parts;
    deps := Some(ds);
  }

  lemma {:induction false} DepsStuck(parts: seq<string>, n: nat)
    requires n <= |parts| && ParseDeps(parts[..n]).None?
    ensures ParseDeps(parts).None?
    decreases |parts|
  {
    if n < |parts| {
      assert parts[..|parts| - 1][..n] == parts[..n];
      DepsStuck(parts[..|parts| - 1], n);
    } else {
      assert parts[..n] == parts;
    }
  }

  /** Lines 152-177. */
  method ReadInfo(info: seq<string>) returns (r: Option<Record>)
    ensures r == ParseInfo(info)
  {
    if |info| < 5 {
      return None;
    }
    var seqNum, pc, weight := Field(info[0], TWO_64), Field(info[1], TWO_64), Field(info[2], TWO_32);
    if seqNum.None? || pc.None? || weight.None? {
      return None;
    }
    var kind := KindNamed(info[3]);
    if kind.None? || kind.value == INVALID {
      return None;
    }
    var record := Record(seqNum.value, pc, weight, kind.value, None, None, None, 0, [], []);
    var delay: Option<nat>;
    if kind.value in [LOAD, STORE] {
      if |info| < 8 {
        return None;
      }
      record := record.(
        pAddr := Field(info[4], TWO_64), size := Field(info[5], TWO_32), flags := Field(info[6], TWO_32));
      if record.pAddr.None? || record.size.None? || record.flags.None? {
        return None;
      }
      delay := Field(info[7], TWO_64);
    } else {
      delay := Field(info[4], TWO_64);
    }
    if delay.None? {
      return None;
    }
    r := Some(record.(compDelay := delay.value));
  }

  /** Lines 148-195: the records of a trace, or none when a line is not understood. */
  method EncodeTrace(text: string) returns (records: Option<seq<Record>>)
    ensures records == ParseAll(ReadLines(text))
  {
    var lines := ReadLines(text);
    var rs: seq<Record> := [];
    for i := 0 to |lines|
      invariant Traverse(ParseLine, lines[..i]) == Some(rs)
    {
      TraverseStep(ParseLine, lines, i, rs);
      var r := ReadLine(lines[i]);
      if r.None? {
        TraverseStuck(ParseLine, lines, i + 1);
        return None;
      }
      rs := rs + [r.value];
    }
    assert lines[..|lines|] == lines;
    records := Some(rs);
  }

  method ReadLine(line: string) returns (r: Option<Record>)
    ensures r == ParseLine(line)
  {
    var cols := Split(Strip(line), ':');
    if |cols| != 3 {
      return None;
    }
    r := ReadInfo(Split(cols[0], ','));
    var rob := ReadDeps(Split(Strip(cols[1]), ','));
    var reg := ReadDeps(Split(cols[2], ','));
    if r.None? || rob.None? || reg.None? {
      return None;
    }
    r := Some(r.value.(robDep := rob.value, regDep := reg.value));
  }

  // ---------------------------------------------------------------- the round trip

  /** Loads and stores carry address, size and flags, other records none of them. */
  ghost predicate Faithful(r: Record) {
    match r.kind
    case INVALID => false
    case LOAD => r.pAddr.Some? && r.size.Some? && r.flags.Some?
    case STORE => r.pAddr.Some? && r.size.Some? && r.flags.Some?
    case COMP => r.pAddr.None? && r.size.None? && r.flags.None?
  }

  /** The record with the values that stand for an absent pc and an absent weight. */
  function Normal(r: Record): Record {
    r.(pc := Some(OrElse(r.pc, 0)), weight := Some(OrElse(r.weight, 1)))
  }

  lemma {:induction false} FieldStr(n: nat, bound: nat)
    requires n < bound
    ensures Field(Str(n), bound) == Some(n)
  {
    PyIntStr(n);
  }

  lemma KindRoundTrip(k: Kind)
    ensures KindNamed(KindName(k)) == Some(k)
    ensures ',' !in KindName(k) && ':' !in KindName(k)
  {
    assert |"INVALID"| == 7 && |"LOAD"| == 4 && |"STORE"| == 5 && |"COMP"| == 4 && "LOAD"[0] != "COMP"[0];
  }

  /** None of the fields contains a comma or a colon. */
  lemma FieldsClean(r: Record, i: nat)
    requires i < |Fields(r)|
    ensures ',' !in Fields(r)[i] && ':' !in Fields(r)[i]
  {
    KindRoundTrip(r.kind);
    var f := Fields(r)[i];
    assert f == KindName(r.kind) || exists n :: f == Str(n);
  }

  lemma FieldsSplit(r: Record)
    ensures Split(Join(Fields(r), ','), ',') == Fields(r)
    ensures ':' !in Join(Fields(r), ',')
  {
    forall i: nat | i < |Fields(r)| ensures ',' !in Fields(r)[i] && ':' !in Fields(r)[i] {
      FieldsClean(r, i);
    }
    SplitJoin(Fields(r), ',');
    JoinLacks(Fields(r), ',', ':');
  }

  lemma {:induction false} JoinLacks(parts: seq<string>, sep: char, c: char)
    requires c != sep && SeparatorFree(parts, c)
    ensures c !in Join(parts, sep)
  {
    if |parts| > 1 {
      JoinLacks(parts[..|parts| - 1], sep, c);
    }
  }

  lemma DepsClean(deps: seq<nat>)
    ensures SeparatorFree([""] + Strs(deps), ',') && SeparatorFree([""] + Strs(deps), ':')
  {
  }

  lemma DepsSplit(deps: seq<nat>)
    ensures Split(DepText(deps), ',') == [""] + Strs(deps)
    ensures ':' !in DepText(deps)
    ensures deps == [] ==> DepText(deps) == ""
    ensures deps != [] ==> DepText(deps)[0] == ',' && IsDigit(DepText(deps)[|DepText(deps)| - 1])
  {
    var parts := [""] + Strs(deps);
    DepsClean(deps);
    SplitJoin(parts, ',');
    JoinLacks(parts, ',', ':');
    DepsEnds(deps);
  }

  lemma {:induction false} DepsEnds(deps: seq<nat>)
    ensures deps == [] ==> DepText(deps) == ""
    ensures deps != [] ==>
              |DepText(deps)| > 0 && DepText(deps)[0] == ',' && IsDigit(DepText(deps)[|DepText(deps)| - 1])
  {
    if deps == [] {
      assert [""] + Strs(deps) == [""];
    } else {
      var n := |deps| - 1;
      DepsEnds(deps[..n]);
      assert [""] + Strs(deps) == [""] + Strs(deps[..n]) + [Str(deps[n])];
      JoinSnoc([""] + Strs(deps[..n]), Str(deps[n]), ',');
    }
  }

  lemma {:induction false} ParseDepsStep(parts: seq<string>, before: seq<nat>, n: nat)
    requires ParseDeps(parts) == Some(before) && n < TWO_64
    ensures ParseDeps(parts + [Str(n)]) == Some(before + [n])
  {
    assert (parts + [Str(n)])[..|parts|] == parts;
    FieldStr(n, TWO_64);
  }

  lemma ParseNoDeps()
    ensures ParseDeps([""]) == Some([])
  {
    assert [""][..0] == [];
  }

  lemma {:induction false} DepPartsSnoc(deps: seq<nat>, n: nat)
    ensures [""] + Strs(deps + [n]) == [""] + Strs(deps) + [Str(n)]
  {
  }

  ghost predicate DepsKept(deps: seq<nat>) {
    ParseDeps([""] + Strs(deps)) == Some(deps)
  }

  lemma DepsKeptStep(deps: seq<nat>, n: nat)
    requires DepsKept(deps) && n < TWO_64
    ensures DepsKept(deps + [n])
  {
    DepPartsSnoc(deps, n);
    ParseDepsStep([""] + Strs(deps), deps, n);
  }

  lemma NoDepsKept()
    ensures DepsKept([])
  {
    ParseNoDeps();
    assert [""] + Strs([]) == [""];
  }

  lemma {:induction false} DepsReadBack(deps: seq<nat>)
    requires forall i :: 0 <= i < |deps| ==> deps[i] < TWO_64
    ensures DepsKept(deps)
  {
    if deps == [] {
      NoDepsKept();
    } else {
      var n := |deps| - 1;
      assert deps == deps[..n] + [deps[n]];
      DepsReadBack(deps[..n]);
      DepsKeptStep(deps[..n], deps[n]);
    }
  }

  lemma HeadReadBack(r: Record)
    requires InRange(r)
    ensures |Fields(r)| >= 5
    ensures Field(Fields(r)[0], TWO_64) == Some(r.seqNum)
    ensures Field(Fields(r)[1], TWO_64) == Some(OrElse(r.pc, 0))
    ensures Field(Fields(r)[2], TWO_32) == Some(OrElse(r.weight, 1))
    ensures KindNamed(Fields(r)[3]) == Some(r.kind)
  {
    var fs := Fields(r);
    assert fs[0] == Str(r.seqNum) && fs[1] == Str(OrElse(r.pc, 0)) && fs[2] == Str(OrElse(r.weight, 1));
    assert fs[3] == KindName(r.kind);
    FieldStr(r.seqNum, TWO_64);
    FieldStr(OrElse(r.pc, 0), TWO_64);
    FieldStr(OrElse(r.weight, 1), TWO_32);
    KindRoundTrip(r.kind);
  }

  lemma MemoryReadBack(r: Record)
    requires InRange(r) && r.pAddr.Some? && r.size.Some? && r.flags.Some?
    ensures |Fields(r)| == 8
    ensures Field(Fields(r)[4], TWO_64) == r.pAddr && Field(Fields(r)[5], TWO_32) == r.size
    ensures Field(Fields(r)[6], TWO_32) == r.flags && Field(Fields(r)[7], TWO_64) == Some(r.compDelay)
  {
    var fs := Fields(r);
    assert fs[4] == Str(r.pAddr.value) && fs[5] == Str(r.size.value) && fs[6] == Str(r.flags.value);
    assert fs[7] == Str(r.compDelay);
    FieldStr(r.pAddr.value, TWO_64);
    FieldStr(r.size.value, TWO_32);
    FieldStr(r.flags.value, TWO_32);
    FieldStr(r.compDelay, TWO_64);
  }

  lemma DelayReadBack(r: Record)
    requires InRange(r) && r.pAddr.None? && r.size.None? && r.flags.None?
    ensures |Fields(r)| == 5 && Field(Fields(r)[4], TWO_64) == Some(r.compDelay)
  {
    assert Fields(r)[4] == Str(r.compDelay);
    FieldStr(r.compDelay, TWO_64);
  }

  /** What is read from a line has memory fields exactly when it is a load or a store. */
  lemma ParsedIsFaithful(info: seq<string>)
    ensures ParseInfo(info).Some? ==> Faithful(ParseInfo(info).value)
  {
  }

  /** The text of the fields is read back exactly when the record is faithful. */
  lemma InfoReadBack(r: Record)
    requires InRange(r)
    ensures ParseInfo(Fields(r)) == Some(Normal(r).(robDep := [], regDep := [])) <==> Faithful(r)
  {
    HeadReadBack(r);
    if Faithful(r) {
      if r.kind == COMP {
        DelayReadBack(r);
      } else {
        MemoryReadBack(r);
      }
    } else {
      ParsedIsFaithful(Fields(r));
    }
  }

  lemma LineStripped(r: Record)
    ensures Strip(Line(r)) == Join([Join(Fields(r), ','), DepText(r.robDep), DepText(r.regDep)], ':')
  {
    var info, rob, reg := Join(Fields(r), ','), DepText(r.robDep), DepText(r.regDep);
    JoinThree(info, rob, reg, ':');
    var text := Join([info, rob, reg], ':');
    assert text == info + [':'] + rob + [':'] + reg;
    InfoStart(r);
    DepsEnds(r.regDep);
    assert text[0] == info[0];
    StripLine(text);
  }

  lemma StripLine(text: string)
    requires text != "" && !IsSpace(text[0]) && !IsSpace(text[|text| - 1])
    ensures Strip(text + "\n") == text
  {
    var l := text + "\n";
    assert LStrip(l) == l;
    assert l[..|l| - 1] == text;
    assert RStrip(text) == text;
  }

  lemma {:induction false} JoinStart(parts: seq<string>, sep: char)
    requires parts != [] && parts[0] != ""
    ensures Join(parts, sep) != "" && Join(parts, sep)[0] == parts[0][0]
  {
    if |parts| > 1 {
      JoinStart(parts[..|parts| - 1], sep);
    }
  }

  lemma InfoStart(r: Record)
    ensures Join(Fields(r), ',') != "" && IsDigit(Join(Fields(r), ',')[0])
  {
    assert Fields(r)[0] == Str(r.seqNum);
    JoinStart(Fields(r), ',');
  }

  /**
   Reading a printed line gives the record back, absent pc and weight made
   explicit, exactly when the record carries the memory fields its kind calls for.
   */
  lemma LineReadBackIff(r: Record)
    requires InRange(r)
    ensures ParseLine(Line(r)) == Some(Normal(r)) <==> Faithful(r)
  {
    LineColumns(r);
    DepsColumns(r);
    InfoReadBack(r);
    ParsedHasNoDeps(Fields(r));
  }

  lemma LineColumns(r: Record)
    ensures Split(Strip(Line(r)), ':') == [Join(Fields(r), ','), DepText(r.robDep), DepText(r.regDep)]
    ensures Split(Join(Fields(r), ','), ',') == Fields(r)
  {
    LineStripped(r);
    FieldsSplit(r);
    DepsSplit(r.robDep);
    DepsSplit(r.regDep);
    SplitJoin([Join(Fields(r), ','), DepText(r.robDep), DepText(r.regDep)], ':');
  }

  lemma DepsColumns(r: Record)
    requires InRange(r)
    ensures ParseDeps(Split(Strip(DepText(r.robDep)), ',')) == Some(r.robDep)
    ensures ParseDeps(Split(DepText(r.regDep), ',')) == Some(r.regDep)
  {
    DepsSplit(r.robDep);
    DepsSplit(r.regDep);
    StripNothing(DepText(r.robDep));
    DepsReadBack(r.robDep);
    DepsReadBack(r.regDep);
  }

  lemma ParsedHasNoDeps(info: seq<string>)
    ensures ParseInfo(info).Some? ==> ParseInfo(info).value.robDep == [] && ParseInfo(info).value.regDep == []
  {
  }

  // ------------------------------------------------------------------ whole traces

  lemma {:induction false} ReadOneLine(line: string)
    requires '\n' !in line
    ensures ReadLines(line + "\n") == [line + "\n"]
  {
    var text := line + "\n";
    if line == "" {
      assert text[1..] == "";
      assert text == [text[0]];
    } else {
      assert text[1..] == line[1..] + "\n";
      ReadOneLine(line[1..]);
      assert [line[0]] + (line[1..] + "\n") == text;
    }
  }

  lemma GlueAppend(c: char, a: seq<string>, b: seq<string>)
    requires a != [] || c == '\n'
    ensures Glue(c, a + b) == Glue(c, a) + b
  {
    if c != '\n' {
      assert (a + b)[1..] == a[1..] + b;
    }
  }

  lemma {:induction false} ReadLinesAppend(text: string, more: string)
    requires EndsLine(text)
    ensures ReadLines(text + more) == ReadLines(text) + ReadLines(more)
  {
    if text == "" {
      assert text + more == more;
    } else {
      assert (text + more)[1..] == text[1..] + more;
      ReadLinesAppend(text[1..], more);
      GlueAppend(text[0], ReadLines(text[1..]), ReadLines(more));
    }
  }

  lemma FieldsOneLine(r: Record)
    ensures '\n' !in Join(Fields(r), ',')
  {
    forall i: nat | i < |Fields(r)| ensures '\n' !in Fields(r)[i] {
      var f := Fields(r)[i];
      assert f == KindName(r.kind) || exists n :: f == Str(n);
    }
    JoinLacks(Fields(r), ',', '\n');
  }

  lemma DepsOneLine(deps: seq<nat>)
    ensures '\n' !in DepText(deps)
  {
    JoinLacks([""] + Strs(deps), ',', '\n');
  }

  lemma LineIsOneLine(r: Record)
    ensures EndsLine(Line(r)) && ReadLines(Line(r)) == [Line(r)]
  {
    var parts := [Join(Fields(r), ','), DepText(r.robDep), DepText(r.regDep)];
    FieldsOneLine(r);
    DepsOneLine(r.robDep);
    DepsOneLine(r.regDep);
    JoinLacks(parts, ':', '\n');
    ReadOneLine(Join(parts, ':'));
  }

  function Lines(rs: seq<Record>): seq<string> {
    seq(|rs|, i requires 0 <= i < |rs| => Line(rs[i]))
  }

  function Normals(rs: seq<Record>): seq<Record> {
    seq(|rs|, i requires 0 <= i < |rs| => Normal(rs[i]))
  }

  predicate EndsLine(text: string) {
    text == "" || text[|text| - 1] == '\n'
  }

  lemma {:induction false} AppendLine(text: string, line: string)
    requires EndsLine(text) && EndsLine(line) && ReadLines(line) == [line]
    ensures ReadLines(text + line) == ReadLines(text) + [line] && EndsLine(text + line)
  {
    ReadLinesAppend(text, line);
  }

  ghost predicate LinesKept(rs: seq<Record>) {
    ReadLines(PrintAll(rs)) == Lines(rs) && EndsLine(PrintAll(rs))
  }

  lemma {:induction false} PrintAllSnoc(rs: seq<Record>, r: Record)
    ensures PrintAll(rs + [r]) == PrintAll(rs) + Line(r)
    ensures Lines(rs + [r]) == Lines(rs) + [Line(r)]
  {
    assert (rs + [r])[..|rs|] == rs;
  }

  lemma LinesKeptStep(rs: seq<Record>, r: Record)
    requires LinesKept(rs)
    ensures LinesKept(rs + [r])
  {
    PrintAllSnoc(rs, r);
    LineIsOneLine(r);
    AppendLine(PrintAll(rs), Line(r));
  }

  lemma {:induction false} TraceLines(rs: seq<Record>)
    ensures LinesKept(rs)
  {
    if rs != [] {
      var n := |rs| - 1;
      assert rs == rs[..n] + [rs[n]];
      TraceLines(rs[..n]);
      LinesKeptStep(rs[..n], rs[n]);
    }
  }

  /** A whole trace, printed and read, comes back exactly when all of its records are faithful. */
  lemma {:induction false} TraceReadBackIff(rs: seq<Record>)
    requires forall i :: 0 <= i < |rs| ==> InRange(rs[i])
    ensures ParseAll(ReadLines(PrintAll(rs))) == Some(Normals(rs)) <==>
            forall i :: 0 <= i < |rs| ==> Faithful(rs[i])
  {
    TraceLines(rs);
    TraverseIff(ParseLine, Lines(rs), Normals(rs));
    forall i: nat | i < |rs| ensures ParseLine(Lines(rs)[i]) == Some(Normals(rs)[i]) <==> Faithful(rs[i]) {
      LineReadBackIff(rs[i]);
    }
  }
}
