/**
 `protolib.py`: base-128 varints as in the section "Base 128 Varints" of the
 Protocol Buffers encoding, and messages framed by their length.
 */
module Varint {
  import opened Arith
  import opened Bytes

  const TWO_63: nat := 0x8000_0000_0000_0000

  /** 128 to the k: the weight of the k-th group of seven bits. */
  function Weight(k: nat): (w: nat)
    ensures w >= 1
  {
    if k == 0 then 1 else 128 * Weight(k - 1)
  }

  /** `b << 7 * k` */
  function Shift(b: nat, k: nat): nat {
    if k == 0 then b else 128 * Shift(b, k - 1)
  }

  /** A group of seven bits in its place lies above all that the groups before it can make up. */
  lemma {:induction false} ShiftBelow(b: nat, k: nat)
    requires b < 128
    ensures Shift(b, k) + Weight(k) <= Weight(k + 1)
  {
    if k > 0 {
      ShiftBelow(b, k - 1);
    } else {
      assert Weight(1) == 128 * Weight(0);
    }
  }

  // ------------------------------------------------------------------- encoding

  /** Seven bits to a byte, the lowest first, with the top bit set on all but the last. */
  function Encode(n: nat): (s: seq<byte>)
    ensures s != []
  {
    if n < 128 then [n] else [128 + n % 128] + Encode(n / 128)
  }

  lemma EncodeStep(value: nat, bits: nat)
    requires value > 0 && bits < 128
    ensures Encode(value * 128 + bits) == [128 + bits] + Encode(value)
  {
    DivModUnique(value * 128 + bits, 128, value, bits);
  }

  method EncodeVarint32(length: nat) returns (out: seq<byte>)
    ensures out == Encode(length)
  {
    out := [];
    var bits, value := length % 128, length / 128;
    while value != 0
      invariant 0 <= bits < 128 && value >= 0
      invariant out + Encode(value * 128 + bits) == Encode(length)
      decreases value
    {
      EncodeStep(value, bits);
      out := out + [128 + bits];
      bits, value := value % 128, value / 128;
    }
    assert Encode(bits) == [bits];
    out := out + [bits];
  }

  // ------------------------------------------------------------------- decoding

  datatype Decoded = Number(value: int, used: nat) | EndOfFile | TooManyBytes

  /**
   The result of a varint: its low 32 bits, and when it does not fit 63 bits those
   bits under a mask of ones, which makes it negative.
   */
  function Truncate(n: nat): int {
    if n >= TWO_63 then n % TWO_32 - TWO_32 else n % TWO_32
  }

  /** Decoding from the k-th byte on, with `result` gathered from the bytes before. */
  function Decode(s: seq<byte>, result: nat, k: nat): Decoded
    requires k < 10
    decreases |s|
  {
    if s == [] then EndOfFile
    else
      var result' := result + Shift(s[0] % 128, k);
      if s[0] < 128 then Number(Truncate(result'), k + 1)
      else if k + 1 == 10 then TooManyBytes
      else Decode(s[1..], result', k + 1)
  }

  /** What a call of `decodeMessage` gets: a message and what is left, or nothing. */
  datatype Read = Message(bytes: seq<byte>, rest: seq<byte>) | Nothing(rest: seq<byte>)

  /** `file.read(size)`: a negative size means all of the file. */
  function TakeBytes(s: seq<byte>, size: int): nat {
    if size < 0 then |s| else Min(size, |s|)
  }

  function ReadMessage(s: seq<byte>): Read {
    match Decode(s, 0, 0)
    case EndOfFile => Nothing([])
    case TooManyBytes => Nothing(s[Min(10, |s|)..])
    case Number(size, used) =>
      UsedInRange(s, 0, 0);
      var body := s[used..];
      if size == 0 then Nothing(body)
      else var n := TakeBytes(body, size); Message(body[..n], body[n..])
  }

  lemma {:induction false} UsedInRange(s: seq<byte>, result: nat, k: nat)
    requires k < 10
    ensures var d := Decode(s, result, k); d.Number? ==> k < d.used <= k + |s|
    ensures Decode(s, result, k).TooManyBytes? ==> |s| >= 10 - k
    decreases |s|
  {
    if s != [] && s[0] >= 128 && k + 1 < 10 {
      UsedInRange(s[1..], result + Shift(s[0] % 128, k), k + 1);
    }
  }

  /** After k bytes of `whole`: what is left and what has been gathered determine the result. */
  ghost predicate DecodesOn(whole: seq<byte>, k: nat, rest: seq<byte>, result: nat) {
    && k < 10 && k <= |whole| && rest == whole[k..]
    && Decode(whole, 0, 0) == Decode(rest, result, k)
    && result < Weight(k)  // so that adding the next group is or-ing it in
  }

  lemma {:induction false} DecodeByte(whole: seq<byte>, k: nat, rest: seq<byte>, result: nat)
    requires DecodesOn(whole, k, rest, result)
    ensures rest == [] ==> Decode(whole, 0, 0) == EndOfFile
    ensures rest != [] ==>
              var result' := result + Shift(rest[0] % 128, k);
              if rest[0] < 128 then Decode(whole, 0, 0) == Number(Truncate(result'), k + 1)
              else if k == 9 then Decode(whole, 0, 0) == TooManyBytes
              else DecodesOn(whole, k + 1, rest[1..], result')
  {
    if rest != [] {
      ShiftBelow(rest[0] % 128, k);
    }
  }

  /** A file open for reading. */
  class Reader {
    const data: seq<byte>
    var pos: nat

    ghost predicate Valid()
      reads this
    {
      pos <= |data|
    }

    ghost function Rest(): seq<byte>
      requires Valid()
      reads this
    {
      data[pos..]
    }

    constructor (data: seq<byte>)
      ensures Valid() && Rest() == data
    {
      this.data := data;
      pos := 0;
    }

    method ReadBytes(size: int) returns (buf: seq<byte>)
      requires Valid()
      modifies this
      ensures Valid() && buf == old(Rest())[..TakeBytes(old(Rest()), size)]
      ensures Rest() == old(Rest())[TakeBytes(old(Rest()), size)..]
    {
      var n := TakeBytes(data[pos..], size);
      buf := data[pos..][..n];
      pos := pos + n;
    }

    method DecodeVarint32() returns (r: Decoded)
      requires Valid()
      modifies this
      ensures Valid() && r == Decode(old(Rest()), 0, 0)
      ensures Rest() == match r
                case Number(_, used) => (UsedInRange(old(Rest()), 0, 0); old(Rest())[used..])
                case EndOfFile => []
                case TooManyBytes => old(Rest())[Min(10, |old(Rest())|)..]
    {
      var result: nat, pos': nat := 0, 0;
      ghost var whole := Rest();
      while true
        invariant Valid() && DecodesOn(whole, pos', Rest(), result)
        decreases 10 - pos'
      {
        UsedInRange(whole, 0, 0);
        DecodeByte(whole, pos', Rest(), result);
        var c := ReadBytes(1);
        if |c| == 0 {
          return EndOfFile;
        }
        var b := c[0];
        result := result + Shift(b % 128, pos');
        pos' := pos' + 1;
        if b < 128 {
          return Number(Truncate(result), pos');
        }
        if 7 * pos' >= 64 {
          return TooManyBytes;
        }
      }
    }

    method DecodeMessage() returns (found: bool, message: seq<byte>)
      requires Valid()
      modifies this
      ensures Valid() && Rest() == ReadMessage(old(Rest())).rest
      ensures found == ReadMessage(old(Rest())).Message?
      ensures found ==> message == ReadMessage(old(Rest())).bytes
    {
      var size := DecodeVarint32();
      if !size.Number? || size.value == 0 {
        return false, [];
      }
      message := ReadBytes(size.value);
      found := true;
    }

    /** Messages are read until none is found. */
    method DecodeAll() returns (messages: seq<seq<byte>>)
      requires Valid()
      modifies this
      ensures Valid() && messages == ReadAll(old(Rest())) && Rest() == Leftover(old(Rest()))
    {
      messages := [];
      ghost var whole, rest := Rest(), Rest();
      while true
        invariant Valid() && rest == Rest() && ReadsOn(whole, messages, rest)
        decreases |rest|
      {
        ReadNext(whole, messages, rest);
        var found, message := DecodeMessage();
        if !found {
          return;
        }
        rest := ReadMessage(rest).rest;
        messages := messages + [message];
      }
    }
  }

  lemma {:induction false} ReadShrinks(s: seq<byte>)
    ensures ReadMessage(s).Message? ==> |ReadMessage(s).rest| < |s|
  {
    UsedInRange(s, 0, 0);
  }

  /** The messages found by calling `decodeMessage` until it finds none. */
  function ReadAll(s: seq<byte>): seq<seq<byte>>
    decreases |s|
  {
    ReadShrinks(s);
    match ReadMessage(s)
    case Nothing(_) => []
    case Message(m, rest) => [m] + ReadAll(rest)
  }

  /** What these calls leave unread. */
  function Leftover(s: seq<byte>): seq<byte>
    decreases |s|
  {
    ReadShrinks(s);
    match ReadMessage(s)
    case Nothing(rest) => rest
    case Message(_, rest) => Leftover(rest)
  }

  lemma {:induction false} ReadAllStep(s: seq<byte>)
    ensures match ReadMessage(s)
            case Nothing(rest) => ReadAll(s) == [] && Leftover(s) == rest
            case Message(m, rest) => |rest| < |s| && ReadAll(s) == [m] + ReadAll(rest) && Leftover(s) == Leftover(rest)
  {
    ReadShrinks(s);
  }

  /** The messages found so far and those in the rest are all messages, with the same bytes left over. */
  ghost predicate ReadsOn(whole: seq<byte>, messages: seq<seq<byte>>, rest: seq<byte>) {
    ReadAll(whole) == messages + ReadAll(rest) && Leftover(whole) == Leftover(rest)
  }

  lemma {:induction false} ReadNext(whole: seq<byte>, messages: seq<seq<byte>>, rest: seq<byte>)
    requires ReadsOn(whole, messages, rest)
    ensures var next := ReadMessage(rest);
            if next.Nothing? then ReadAll(whole) == messages && Leftover(whole) == next.rest
            else |next.rest| < |rest| && ReadsOn(whole, messages + [next.bytes], next.rest)
  {
    ReadAllStep(rest);
  }

  function Frame(m: seq<byte>): seq<byte> {
    Encode(|m|) + m
  }

  function WriteAll(ms: seq<seq<byte>>): seq<byte> {
    if ms == [] then [] else Frame(ms[0]) + WriteAll(ms[1..])
  }

  method EncodeMessages(ms: seq<seq<byte>>) returns (out: seq<byte>)
    ensures out == WriteAll(ms)
  {
    out := [];
    for i := 0 to |ms|
      invariant out + WriteAll(ms[i..]) == WriteAll(ms)
    {
      var length := EncodeVarint32(|ms[i]|);
      assert ms[i..][1..] == ms[i + 1..];
      out := out + length + ms[i];
      assert out + WriteAll(ms[i + 1..]) == WriteAll(ms);
    }
  }

  // -------------------------------------------------------------------- varints

  lemma {:induction false} WeightMonotone(j: nat, k: nat)
    requires j <= k
    ensures Weight(j) <= Weight(k)
  {
    if j < k {
      WeightMonotone(j, k - 1);
    }
  }

  /** A number below 128 to the k takes at most k bytes, and one that is not takes more. */
  lemma {:induction false} EncodeLength(n: nat, k: nat)
    requires k > 0
    ensures |Encode(n)| <= k <==> n < Weight(k)
  {
    if k == 1 {
      assert Weight(1) == 128 * Weight(0);
    } else if n < 128 {
      WeightMonotone(1, k);
      assert Weight(1) == 128 * Weight(0);
    } else {
      EncodeLength(n / 128, k - 1);
    }
  }

  /** Lengths below 2^32 take at most five bytes. */
  lemma {:induction false} FiveBytes(n: nat)
    requires n < TWO_32
    ensures |Encode(n)| <= 5
  {
    assert Weight(1) == 128 && Weight(2) == 16384 && Weight(3) == 2097152;
    assert Weight(4) == 268435456 && Weight(5) == 34359738368;
    EncodeLength(n, 5);
  }

  /** An encoding of more than one byte: a group that is marked to go on, and the rest. */
  lemma {:induction false} EncodeSplits(n: nat, suffix: seq<byte>)
    requires n >= 128
    ensures var s := Encode(n) + suffix;
            && s != [] && s[0] == 128 + n % 128
            && s[1..] == Encode(n / 128) + suffix && |Encode(n)| == 1 + |Encode(n / 128)|
  {
  }

  lemma DecodeMarked(s: seq<byte>, result: nat, k: nat)
    requires k < 9 && s != [] && s[0] >= 128
    ensures Decode(s, result, k) == Decode(s[1..], result + Shift(s[0] % 128, k), k + 1)
  {
  }

  lemma {:induction false} DecodeEncodeFrom(n: nat, suffix: seq<byte>, result: nat, k: nat)
    requires k < 10 && n < Weight(10 - k)
    ensures Decode(Encode(n) + suffix, result, k) == Number(Truncate(result + Shift(n, k)), k + |Encode(n)|)
    decreases 10 - k
  {
    var s := Encode(n) + suffix;
    if n < 128 {
      assert s[0] == n;
    } else {
      QuotientFits(n, 10 - k);
      EncodeSplits(n, suffix);
      DivModUnique(s[0] as nat, 128, 1, n % 128);
      DecodeMarked(s, result, k);
      DecodeEncodeFrom(n / 128, suffix, result + Shift(n % 128, k), k + 1);
      GroupSum(n, k);
    }
  }

  lemma QuotientFits(n: nat, j: nat)
    requires 128 <= n < Weight(j)
    ensures j >= 2 && n / 128 < Weight(j - 1)
  {
    assert j != 0;
    assert Weight(j) == 128 * Weight(j - 1);
    assert Weight(0) == 1;
  }

  /** The lowest group and the others, each in its place, make up the number. */
  lemma {:induction false} GroupSum(n: nat, k: nat)
    ensures Shift(n % 128, k) + Shift(n / 128, k + 1) == Shift(n, k)
  {
    if k > 0 {
      GroupSum(n, k - 1);
    } else {
      assert Shift(n / 128, 1) == 128 * Shift(n / 128, 0);
    }
  }

  /** Decoding undoes encoding whatever follows, up to the truncation to 32 bits. */
  lemma {:induction false} DecodeEncode(n: nat, suffix: seq<byte>)
    requires n < TWO_63
    ensures Decode(Encode(n) + suffix, 0, 0) == Number(n % TWO_32, |Encode(n)|)
  {
    assert Weight(5) == 34359738368 by {
      assert Weight(1) == 128 && Weight(2) == 16384 && Weight(3) == 2097152 && Weight(4) == 268435456;
    }
    assert Weight(10) > TWO_63 by {
      assert Weight(6) == 4398046511104 && Weight(7) == 562949953421312 && Weight(8) == 72057594037927936;
      assert Weight(9) == 9223372036854775808;
    }
    DecodeEncodeFrom(n, suffix, 0, 0);
  }

  /** No encoding is the beginning of another. */
  lemma {:induction false} PrefixFree(m: nat, n: nat)
    requires Encode(m) <= Encode(n)
    ensures m == n
  {
    assert Encode(m)[0] == Encode(n)[0];
    if m >= 128 {
      assert Encode(m)[1..] <= Encode(n)[1..];
      assert Encode(m)[1..] == Encode(m / 128) && Encode(n)[1..] == Encode(n / 128);
      PrefixFree(m / 128, n / 128);
    }
  }

  // ------------------------------------------------------------------- messages

  lemma {:induction false} FrameDecodes(m: seq<byte>, rest: seq<byte>)
    requires |m| < TWO_63
    ensures var s := Frame(m) + rest;
            && Decode(s, 0, 0) == Number(|m| % TWO_32, |Encode(|m|)|)
            && |Encode(|m|)| <= |s| && s[|Encode(|m|)|..] == m + rest
  {
    var s := Frame(m) + rest;
    assert s == Encode(|m|) + (m + rest);
    DecodeEncode(|m|, m + rest);
  }

  lemma BodySplits(m: seq<byte>, rest: seq<byte>, size: nat)
    requires size <= |m|
    ensures (m + rest)[..size] == m[..size] && (m + rest)[size..] == m[size..] + rest
  {
  }

  lemma {:induction false} ReadFrame(m: seq<byte>, rest: seq<byte>)
    requires |m| < TWO_63
    ensures var size := |m| % TWO_32;
            ReadMessage(Frame(m) + rest) ==
              if size == 0 then Nothing(m + rest) else Message(m[..size], m[size..] + rest)
  {
    var size := |m| % TWO_32;
    FrameDecodes(m, rest);
    assert TakeBytes(m + rest, size) == size;
    BodySplits(m, rest, size);
  }

  ghost predicate Framable(m: seq<byte>) {
    0 < |m| < TWO_32
  }

  lemma {:induction false} ReadGoodFrame(m: seq<byte>, rest: seq<byte>)
    requires Framable(m)
    ensures ReadAll(Frame(m) + rest) == [m] + ReadAll(rest)
    ensures Leftover(Frame(m) + rest) == Leftover(rest)
  {
    DivModUnique(|m|, TWO_32, 0, |m|);
    ReadFrame(m, rest);
    assert m[..|m|] == m && m[|m|..] + rest == rest;
    assert ReadMessage(Frame(m) + rest) == Message(m, rest);
  }

  lemma {:induction false} ReadOddFrame(m: seq<byte>, rest: seq<byte>)
    requires !Framable(m) && |m| < TWO_63
    ensures var r := ReadAll(Frame(m) + rest); r == [] || r[0] != m
  {
    ReadFrame(m, rest);
    ReadShrinks(Frame(m) + rest);
  }

  lemma {:induction false} FramesReadBack(ms: seq<seq<byte>>)
    requires forall i :: 0 <= i < |ms| ==> Framable(ms[i])
    ensures ReadAll(WriteAll(ms)) == ms && Leftover(WriteAll(ms)) == []
  {
    if ms != [] {
      FramesReadBack(ms[1..]);
      ReadGoodFrame(ms[0], WriteAll(ms[1..]));
      assert ms == [ms[0]] + ms[1..];
    }
  }

  lemma {:induction false} OddFrameNotReadBack(ms: seq<seq<byte>>, k: nat)
    requires (forall i :: 0 <= i < |ms| ==> |ms[i]| < TWO_63) && k < |ms| && !Framable(ms[k])
    ensures ReadAll(WriteAll(ms)) != ms
  {
    var rest := WriteAll(ms[1..]);
    if Framable(ms[0]) {
      OddFrameNotReadBack(ms[1..], k - 1);
      ReadGoodFrame(ms[0], rest);
      assert ms == [ms[0]] + ms[1..];
      assert ReadAll(WriteAll(ms))[1..] == ReadAll(rest);
    } else {
      ReadOddFrame(ms[0], rest);
    }
  }

  /**
   What is written is read back, and the whole of it, exactly when no message is
   empty and every length fits 32 bits.
   */
  lemma {:induction false} ReadBackIff(ms: seq<seq<byte>>)
    requires forall i :: 0 <= i < |ms| ==> |ms[i]| < TWO_63
    ensures ReadAll(WriteAll(ms)) == ms && Leftover(WriteAll(ms)) == [] <==>
            forall i :: 0 <= i < |ms| ==> Framable(ms[i])
  {
    if forall i :: 0 <= i < |ms| ==> Framable(ms[i]) {
      FramesReadBack(ms);
    } else {
      var k: nat :| k < |ms| && !Framable(ms[k]);
      OddFrameNotReadBack(ms, k);
    }
  }
}
