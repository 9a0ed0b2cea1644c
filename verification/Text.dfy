/**
 The string functions the scripts rely on: `str` and `int` of a number, `zfill`,
 `strip`, `split` and `join`, with the round trips between them.
 */
module Text {

  datatype Option<T> = None | Some(value: T)

  /** All results of `f` along a list, or nothing if one is missing. */
  function Traverse<A, B>(f: A -> Option<B>, xs: seq<A>): Option<seq<B>> {
    if xs == [] then Some([])
    else
      var before := Traverse(f, xs[..|xs| - 1]);
      if before.None? then None else
      var y := f(xs[|xs| - 1]);
      if y.None? then None else Some(before.value + [y.value])
  }

  lemma TraverseStep<A, B>(f: A -> Option<B>, xs: seq<A>, i: nat, ys: seq<B>)
    requires i < |xs| && Traverse(f, xs[..i]) == Some(ys)
    ensures Traverse(f, xs[..i + 1]) == if f(xs[i]).None? then None else Some(ys + [f(xs[i]).value])
  {
    assert xs[..i + 1][..i] == xs[..i];
  }

  lemma {:induction false} TraverseStuck<A, B>(f: A -> Option<B>, xs: seq<A>, n: nat)
    requires n <= |xs| && Traverse(f, xs[..n]).None?
    ensures Traverse(f, xs).None?
    decreases |xs|
  {
    if n < |xs| {
      assert xs[..|xs| - 1][..n] == xs[..n];
      TraverseStuck(f, xs[..|xs| - 1], n);
    } else {
      assert xs[..n] == xs;
    }
  }

  /** `ys` are the results exactly when each of them is. */
  lemma {:induction false} TraverseIff<A, B>(f: A -> Option<B>, xs: seq<A>, ys: seq<B>)
    requires |xs| == |ys|
    ensures Traverse(f, xs) == Some(ys) <==> forall i :: 0 <= i < |xs| ==> f(xs[i]) == Some(ys[i])
  {
    if xs != [] {
      var n := |xs| - 1;
      TraverseIff(f, xs[..n], ys[..n]);
      assert ys == ys[..n] + [ys[n]];
      if Traverse(f, xs) == Some(ys) {
        var before := Traverse(f, xs[..n]).value;
        assert before == (before + [f(xs[n]).value])[..n] == ys[..n];
      }
    } else {
      assert ys == [];
    }
  }

  // ------------------------------------------------------------------- numbers

  predicate IsDigit(c: char) {
    '0' <= c <= '9'
  }

  predicate AllDigits(s: string) {
    forall i :: 0 <= i < |s| ==> IsDigit(s[i])
  }

  function DigitChar(d: nat): (c: char)
    requires d < 10
    ensures IsDigit(c) && c as int - '0' as int == d
  {
    d as char + '0'
  }

  function Str(n: nat): (s: string)
    ensures s != [] && AllDigits(s)
  {
    if n < 10 then [DigitChar(n)] else Str(n / 10) + [DigitChar(n % 10)]
  }

  function Value(s: string): nat
    requires AllDigits(s)
  {
    if s == [] then 0 else 10 * Value(s[..|s| - 1]) + (s[|s| - 1] as int - '0' as int)
  }

  lemma {:induction false} ValueStr(n: nat)
    ensures Value(Str(n)) == n
  {
    if n >= 10 {
      ValueStr(n / 10);
      assert Str(n)[..|Str(n)| - 1] == Str(n / 10);
    } else {
      assert Value([]) == 0;
      assert Str(n)[..0] == [];
    }
  }

  lemma {:induction false} StrLengthMonotone(m: nat, n: nat)
    requires m <= n
    ensures |Str(m)| <= |Str(n)|
  {
    if m >= 10 {
      StrLengthMonotone(m / 10, n / 10);
    }
  }

  function Zeros(k: int): (s: string)
    ensures |s| == if k > 0 then k else 0
    ensures AllDigits(s)
  {
    seq(if k > 0 then k else 0, _ => '0')
  }

  function Zfill(s: string, width: nat): string {
    Zeros(width - |s|) + s
  }

  lemma {:induction false} ValueLeadingZeros(k: nat, s: string)
    requires AllDigits(s)
    ensures AllDigits(Zeros(k) + s) && Value(Zeros(k) + s) == Value(s)
  {
    var z := Zeros(k) + s;
    if s != [] {
      ValueLeadingZeros(k, s[..|s| - 1]);
      assert z[..|z| - 1] == Zeros(k) + s[..|s| - 1];
    } else if k > 0 {
      ValueLeadingZeros(k - 1, []);
      assert z[..|z| - 1] == Zeros(k - 1) + [];
    } else {
      assert z == [];
    }
  }

  lemma {:induction false} ValueZfill(n: nat, width: nat)
    ensures AllDigits(Zfill(Str(n), width)) && Value(Zfill(Str(n), width)) == n
  {
    var k: nat := if width > |Str(n)| then width - |Str(n)| else 0;
    ValueLeadingZeros(k, Str(n));
    ValueStr(n);
    assert Zeros(k) == Zeros(width - |Str(n)|);
  }

  /** Padded to one width, different numbers stay different. */
  lemma {:induction false} ZfillInjective(m: nat, n: nat, width: nat)
    ensures Zfill(Str(m), width) == Zfill(Str(n), width) ==> m == n
  {
    ValueZfill(m, width);
    ValueZfill(n, width);
  }

  // ------------------------------------------------------------------- strip

  predicate IsSpace(c: char) {
    c == ' ' || c == '\t' || c == '\n' || c == '\r' || c == '\U{0B}' || c == '\U{0C}'
  }

  function LStrip(s: string): string {
    if s != [] && IsSpace(s[0]) then LStrip(s[1..]) else s
  }

  function RStrip(s: string): string {
    if s != [] && IsSpace(s[|s| - 1]) then RStrip(s[..|s| - 1]) else s
  }

  function Strip(s: string): string {
    RStrip(LStrip(s))
  }

  /** `int(s)`: blanks around an optional sign and at least one digit. */
  function PyInt(s: string): Option<int> {
    var t := Strip(s);
    var signed := t != [] && (t[0] == '-' || t[0] == '+');
    var digits := if signed then t[1..] else t;
    if digits == [] || !AllDigits(digits) then None
    else
      var v: int := Value(digits);
      Some(if signed && t[0] == '-' then -v else v)
  }

  lemma StripNothing(s: string)
    requires s != [] ==> !IsSpace(s[0]) && !IsSpace(s[|s| - 1])
    ensures Strip(s) == s
  {
  }

  lemma {:induction false} PyIntStr(n: nat)
    ensures PyInt(Str(n)) == Some(n)
  {
    StripNothing(Str(n));
    ValueStr(n);
  }

  // ------------------------------------------------------------ split and join

  function Split(s: string, sep: char): (r: seq<string>)
    ensures r != []
  {
    if s == [] then [[]]
    else
      var r := Split(s[..|s| - 1], sep);
      var c := s[|s| - 1];
      if c == sep then r + [[]] else r[..|r| - 1] + [r[|r| - 1] + [c]]
  }

  function Join(parts: seq<string>, sep: char): string {
    if parts == [] then []
    else if |parts| == 1 then parts[0]
    else Join(parts[..|parts| - 1], sep) + [sep] + parts[|parts| - 1]
  }

  lemma {:induction false} SplitTail(s: string, t: string, sep: char)
    requires sep !in t
    ensures var r := Split(s, sep); Split(s + t, sep) == r[..|r| - 1] + [r[|r| - 1] + t]
  {
    var r := Split(s, sep);
    if t == [] {
      assert s + t == s;
      assert r[|r| - 1] + t == r[|r| - 1];
    } else {
      var n := |t| - 1;
      assert (s + t)[..|s + t| - 1] == s + t[..n];
      SplitTail(s, t[..n], sep);
      assert t == t[..n] + [t[n]];
      assert r[|r| - 1] + t == (r[|r| - 1] + t[..n]) + [t[n]];
    }
  }

  lemma {:induction false} SplitNoSeparator(t: string, sep: char)
    requires sep !in t
    ensures Split(t, sep) == [t]
  {
    SplitTail([], t, sep);
    assert [] + t == t;
  }

  /** Appending a separator and a part without separators adds one part. */
  lemma {:induction false} SplitSnoc(s: string, t: string, sep: char)
    requires sep !in t
    ensures Split(s + [sep] + t, sep) == Split(s, sep) + [t]
  {
    assert (s + [sep])[..|s|] == s;
    SplitTail(s + [sep], t, sep);
    assert [] + t == t;
  }

  ghost predicate SeparatorFree(parts: seq<string>, sep: char) {
    forall i :: 0 <= i < |parts| ==> sep !in parts[i]
  }

  lemma {:induction false} SplitJoin(parts: seq<string>, sep: char)
    requires parts != [] && SeparatorFree(parts, sep)
    ensures Split(Join(parts, sep), sep) == parts
  {
    var n := |parts| - 1;
    if n == 0 {
      SplitNoSeparator(parts[0], sep);
    } else {
      var init, last := parts[..n], parts[n];
      SplitJoin(init, sep);
      SplitSnoc(Join(init, sep), last, sep);
      assert parts == init + [last];
    }
  }
}
