/** Base64 (common/base64.hpp; sections 4 and 5 of RFC 4648). Text is held as its ASCII bytes, because
    decoding may overwrite its own input. */
module Base64 {
  import opened Bytes

  datatype Alphabet = Auto | Standard | UrlSafe
  datatype Behavior = Moderate | Loose

  const PAD: Byte := 0x3D

  // ----- digits

  /** The alphabet whose table is used for encoding. */
  function Table(a: Alphabet): Alphabet {
    if a.UrlSafe? then UrlSafe else Standard
  }

  function Digit(a: Alphabet, v: nat): Byte
    requires v < 64
  {
    if v < 26 then 0x41 + v
    else if v < 52 then 0x61 + (v - 26)
    else if v < 62 then 0x30 + (v - 52)
    else if Table(a).UrlSafe? then (if v == 62 then 0x2D else 0x5F)
    else (if v == 62 then 0x2B else 0x2F)
  }

  /** The value of a character and the alphabet known after it, if the character belongs to one. */
  datatype Reading = Invalid | Value(value: nat, alphabet: Alphabet)

  function ValueOf(a: Alphabet, c: Byte): (r: Reading)
    ensures r.Value? ==> r.value < 64
  {
    if 0x41 <= c <= 0x5A then Value(c - 0x41, a)
    else if 0x61 <= c <= 0x7A then Value(c - 0x61 + 26, a)
    else if 0x30 <= c <= 0x39 then Value(c - 0x30 + 52, a)
    else match a
      case Standard => if c == 0x2B then Value(62, a) else if c == 0x2F then Value(63, a) else Invalid
      case UrlSafe => if c == 0x2D then Value(62, a) else if c == 0x5F then Value(63, a) else Invalid
      case Auto =>
        if c == 0x2B then Value(62, Standard) else if c == 0x2F then Value(63, Standard)
        else if c == 0x2D then Value(62, UrlSafe) else if c == 0x5F then Value(63, UrlSafe) else Invalid
  }

  /** A decoder that knows the right alphabet or none yet. */
  predicate Suits(d: Alphabet, a: Alphabet) {
    d.Auto? || d == Table(a)
  }

  lemma DigitReadsBack(a: Alphabet, d: Alphabet, v: nat)
    requires v < 64 && Suits(d, a)
    ensures Digit(a, v) != PAD
    ensures ValueOf(d, Digit(a, v)).Value? && ValueOf(d, Digit(a, v)).value == v
    ensures Suits(ValueOf(d, Digit(a, v)).alphabet, a)
  {
  }

  /** Tables 1 and 2 of RFC 4648. */
  const UPPER := "ABCDEFGHIJKLMNOPQRSTUVWXYZ"
  const LOWER := "abcdefghijklmnopqrstuvwxyz"
  const DECIMAL := "0123456789"
  const STANDARD_DIGITS := UPPER + LOWER + DECIMAL + "+/"
  const URL_SAFE_DIGITS := UPPER + LOWER + DECIMAL + "-_"

  /** A digit is the character of the table at its value. */
  lemma DigitsAre(a: Alphabet, v: nat)
    requires v < 64
    ensures |STANDARD_DIGITS| == 64 == |URL_SAFE_DIGITS|
    ensures Digit(a, v) == (if a.UrlSafe? then URL_SAFE_DIGITS[v] else STANDARD_DIGITS[v]) as int
  {
    InParts(UPPER, LOWER, DECIMAL, if a.UrlSafe? then "-_" else "+/", v);
    if v < 26 {
      UpperIs(v);
    } else if v < 52 {
      LowerIs(v - 26);
    } else if v < 62 {
      DecimalIs(v - 52);
    }
  }

  lemma InParts(a: string, b: string, c: string, d: string, v: nat)
    requires v < |a| + |b| + |c| + |d|
    ensures (a + b + c + d)[v] ==
            if v < |a| then a[v]
            else if v < |a| + |b| then b[v - |a|]
            else if v < |a| + |b| + |c| then c[v - |a| - |b|]
            else d[v - |a| - |b| - |c|]
  {
  }

  lemma UpperIs(v: nat)
    requires v < 26
    ensures UPPER[v] as int == 0x41 + v
  {
  }

  lemma LowerIs(v: nat)
    requires v < 26
    ensures LOWER[v] as int == 0x61 + v
  {
  }

  lemma DecimalIs(v: nat)
    requires v < 10
    ensures DECIMAL[v] as int == 0x30 + v
  {
  }

  /** A character is read as the value at which it stands in the table, and is not in the table if it is refused.
      Without a known alphabet both tables are looked at, and the last two values decide on one. */
  lemma ValuesAre(a: Alphabet, c: Byte, v: nat)
    requires v < 64
    ensures |STANDARD_DIGITS| == 64 == |URL_SAFE_DIGITS|
    ensures var r, inStandard, inUrlSafe := ValueOf(a, c), c == STANDARD_DIGITS[v] as int, c == URL_SAFE_DIGITS[v] as int;
            && (r.Value? && r.value == v <==> (!a.UrlSafe? && inStandard) || (!a.Standard? && inUrlSafe))
            && (r.Value? && r.value == v ==> r.alphabet == if v < 62 then a else if inStandard then Standard else UrlSafe)
  {
    DigitsAre(Standard, v);
    DigitsAre(UrlSafe, v);
  }

  // ----- encoding

  function Encode(bs: seq<Byte>, a: Alphabet): seq<Byte> {
    if |bs| == 0 then []
    else if |bs| == 1 then [Digit(a, bs[0] / 4), Digit(a, bs[0] % 4 * 16), PAD, PAD]
    else if |bs| == 2 then
      [Digit(a, bs[0] / 4), Digit(a, bs[0] % 4 * 16 + bs[1] / 16), Digit(a, bs[1] % 16 * 4), PAD]
    else
      [Digit(a, bs[0] / 4), Digit(a, bs[0] % 4 * 16 + bs[1] / 16), Digit(a, bs[1] % 16 * 4 + bs[2] / 64),
       Digit(a, bs[2] % 64)] + Encode(bs[3..], a)
  }

  function RequiredEncodeSize(n: nat): nat {
    (n / 3 + (if n % 3 != 0 then 1 else 0)) * 4
  }

  function MaxDecodeSize(n: nat): nat {
    (n / 4 + (if n % 4 != 0 then 1 else 0)) * 3
  }

  /** The loop as written, one input byte at a time with early exits for the last group. */
  method EncodeBytes(bs: seq<Byte>, a: Alphabet) returns (out: seq<Byte>)
    ensures out == Encode(bs, a)
  {
    out := [];
    var i := 0;
    while i != |bs|
      invariant i <= |bs| && out + Encode(bs[i..], a) == Encode(bs, a)
      decreases |bs| - i
    {
      ghost var rest := bs[i..];
      var i0: int := bs[i];
      i := i + 1;
      var group := [Digit(a, i0 / 4)];
      if i == |bs| {
        group := group + [Digit(a, i0 % 4 * 16), PAD, PAD];
        assert Encode(rest, a) == group;
        return out + group;
      }
      var i1: int := bs[i];
      i := i + 1;
      group := group + [Digit(a, i0 % 4 * 16 + i1 / 16)];
      if i == |bs| {
        group := group + [Digit(a, i1 % 16 * 4), PAD];
        assert Encode(rest, a) == group;
        return out + group;
      }
      var i2: int := bs[i];
      i := i + 1;
      group := group + [Digit(a, i1 % 16 * 4 + i2 / 64), Digit(a, i2 % 64)];
      assert rest[3..] == bs[i..];
      assert Encode(rest, a) == group + Encode(bs[i..], a);
      out := out + group;
    }
  }

  function Number(b0: Byte, b1: Byte, b2: Byte): (n: nat)
    ensures n < 0x1000000
  {
    var x, y, z: int := b0, b1, b2;
    0x10000 * x + 0x100 * y + z
  }

  lemma NumberDigits(b0: Byte, b1: Byte, b2: Byte)
    ensures var n := Number(b0, b1, b2);
            && n / 0x40000 == b0 / 4 && n / 0x1000 % 64 == b0 % 4 * 16 + b1 / 16
            && n / 64 % 64 == b1 % 16 * 4 + b2 / 64 && n % 64 == b2 % 64
  {
    FourDigits(Number(b0, b1, b2), b0 / 4, b0 % 4 * 16 + b1 / 16, b1 % 16 * 4 + b2 / 64, b2 % 64);
  }

  lemma FourDigits(n: nat, v0: nat, v1: nat, v2: nat, v3: nat)
    requires v0 < 64 && v1 < 64 && v2 < 64 && v3 < 64
    requires n == 0x40000 * v0 + 0x1000 * v1 + 64 * v2 + v3
    ensures n / 0x40000 == v0 && n / 0x1000 % 64 == v1 && n / 64 % 64 == v2 && n % 64 == v3
  {
    assert n / 64 == 0x1000 * v0 + 64 * v1 + v2;
    assert n / 0x1000 == 64 * v0 + v1;
  }

  /** Each group of three bytes is one number, written with four digits to the base 64; a last group of one or two
      bytes is filled up with zero bits, and pads stand for the digits that hold nothing else. */
  lemma GroupsAre(bs: seq<Byte>, a: Alphabet)
    ensures |bs| >= 3 ==> var n, e := Number(bs[0], bs[1], bs[2]), Encode(bs, a);
              && e[..4] == [Digit(a, n / 0x40000), Digit(a, n / 0x1000 % 64), Digit(a, n / 64 % 64), Digit(a, n % 64)]
              && e[4..] == Encode(bs[3..], a)
    ensures |bs| == 2 ==> var n := Number(bs[0], bs[1], 0);
              Encode(bs, a) == [Digit(a, n / 0x40000), Digit(a, n / 0x1000 % 64), Digit(a, n / 64 % 64), PAD]
    ensures |bs| == 1 ==> var n := Number(bs[0], 0, 0);
              Encode(bs, a) == [Digit(a, n / 0x40000), Digit(a, n / 0x1000 % 64), PAD, PAD]
  {
    if bs != [] {
      NumberDigits(bs[0], if |bs| > 1 then bs[1] else 0, if |bs| > 2 then bs[2] else 0);
    }
  }

  lemma {:induction false} EncodedSize(bs: seq<Byte>, a: Alphabet)
    ensures |Encode(bs, a)| == RequiredEncodeSize(|bs|)
    decreases |bs|
  {
    if |bs| >= 3 {
      EncodedSize(bs[3..], a);
    }
  }

  // ----- decoding

  /** What the decoder carries: the last value, how many of its bits are still unused, the alphabet. */
  datatype Carry = Carry(last: nat, bits: nat, alphabet: Alphabet)

  predicate CarryOk(st: Carry) {
    st.last < 64 && (st.bits == 0 || st.bits == 2 || st.bits == 4 || st.bits == 6)
  }

  function Begin(a: Alphabet): Carry {
    Carry(0, 0, a)
  }

  /** The byte completed by the next value: the unused bits of the last one, then as many as are needed. */
  function Complete(st: Carry, part: nat): Byte
    requires CarryOk(st) && st.bits > 0 && part < 64
  {
    if st.bits == 6 then st.last * 4 + part / 16
    else if st.bits == 4 then st.last % 16 * 16 + part / 4
    else st.last % 4 * 64 + part
  }

  function After(st: Carry, part: nat, a: Alphabet): (st': Carry)
    requires CarryOk(st) && part < 64
    ensures CarryOk(st')
  {
    Carry(part, if st.bits + 6 >= 8 then st.bits - 2 else st.bits + 6, a)
  }

  /** The bytes written and whether the decoder returned rather than threw. */
  datatype Decoded = Decoded(out: seq<Byte>, ok: bool)

  predicate AllPad(s: seq<Byte>) {
    forall i :: 0 <= i < |s| ==> s[i] == PAD
  }

  function Decode(s: seq<Byte>, st: Carry, behavior: Behavior): Decoded
    requires CarryOk(st)
    decreases |s|
  {
    if s == [] then Decoded([], true)
    else if s[0] == PAD then Decoded([], behavior.Loose? || AllPad(s[1..]))
    else match ValueOf(st.alphabet, s[0])
      case Invalid => Decoded([], false)
      case Value(part, a) =>
        var rest := Decode(s[1..], After(st, part, a), behavior);
        if st.bits + 6 >= 8 then Decoded([Complete(st, part)] + rest.out, rest.ok) else rest
  }

  lemma FirstByte(b0: Byte, x: nat)
    requires x < 16
    ensures b0 / 4 * 4 + (b0 % 4 * 16 + x) / 16 == b0
  {
    assert (b0 % 4 * 16 + x) / 16 == b0 % 4;
  }

  lemma SecondByte(b1: Byte, y: nat, x: nat)
    requires y < 4 && x < 4
    ensures (y * 16 + b1 / 16) % 16 * 16 + (b1 % 16 * 4 + x) / 4 == b1
  {
    assert (y * 16 + b1 / 16) % 16 == b1 / 16;
    assert (b1 % 16 * 4 + x) / 4 == b1 % 16;
  }

  lemma ThirdByte(b2: Byte, y: nat)
    requires y < 16
    ensures (y * 4 + b2 / 64) % 4 * 64 + b2 % 64 == b2
  {
    assert (y * 4 + b2 / 64) % 4 == b2 / 64;
  }

  /** Four digits from a fresh start give back three bytes. */
  lemma DecodeGroup(a: Alphabet, st: Carry, b0: Byte, b1: Byte, b2: Byte, rest: seq<Byte>, behavior: Behavior)
    returns (d: Alphabet)
    requires CarryOk(st) && st.bits == 0 && Suits(st.alphabet, a)
    ensures Suits(d, a)
    ensures var v0, v1, v2, v3 := b0 / 4, b0 % 4 * 16 + b1 / 16, b1 % 16 * 4 + b2 / 64, b2 % 64;
            var tail := Decode(rest, Carry(v3, 0, d), behavior);
            Decode([Digit(a, v0), Digit(a, v1), Digit(a, v2), Digit(a, v3)] + rest, st, behavior)
            == Decoded([b0, b1, b2] + tail.out, tail.ok)
  {
    var v0, v1, v2, v3 := b0 / 4, b0 % 4 * 16 + b1 / 16, b1 % 16 * 4 + b2 / 64, b2 % 64;
    FirstByte(b0, b1 / 16);
    SecondByte(b1, b0 % 4, b2 / 64);
    ThirdByte(b2, b1 % 16);
    d := DecodeFour(a, st, v0, v1, v2, v3, rest, behavior);
  }

  lemma DecodeFour(a: Alphabet, st: Carry, v0: nat, v1: nat, v2: nat, v3: nat, rest: seq<Byte>, behavior: Behavior)
    returns (d: Alphabet)
    requires CarryOk(st) && st.bits == 0 && Suits(st.alphabet, a)
    requires v0 < 64 && v1 < 64 && v2 < 64 && v3 < 64
    ensures Suits(d, a)
    ensures var tail := Decode(rest, Carry(v3, 0, d), behavior);
            Decode([Digit(a, v0), Digit(a, v1), Digit(a, v2), Digit(a, v3)] + rest, st, behavior)
            == Decoded([v0 * 4 + v1 / 16, v1 % 16 * 16 + v2 / 4, v2 % 4 * 64 + v3] + tail.out, tail.ok)
  {
    var d0, d1, d2, d3 := Digit(a, v0), Digit(a, v1), Digit(a, v2), Digit(a, v3);
    var s1, tail1 := StepDigit(a, st, v0, [d1] + ([d2] + ([d3] + rest)), behavior);
    d := DecodeRest(a, s1, v1, v2, v3, rest, behavior);
    assert [d0, d1, d2, d3] + rest == [d0] + ([d1] + ([d2] + ([d3] + rest)));
  }

  /** The three digits after the first. */
  lemma DecodeRest(a: Alphabet, st: Carry, v1: nat, v2: nat, v3: nat, rest: seq<Byte>, behavior: Behavior)
    returns (d: Alphabet)
    requires CarryOk(st) && st.bits == 6 && Suits(st.alphabet, a)
    requires v1 < 64 && v2 < 64 && v3 < 64
    ensures Suits(d, a)
    ensures var tail := Decode(rest, Carry(v3, 0, d), behavior);
            Decode([Digit(a, v1)] + ([Digit(a, v2)] + ([Digit(a, v3)] + rest)), st, behavior)
            == Decoded([st.last * 4 + v1 / 16, v1 % 16 * 16 + v2 / 4, v2 % 4 * 64 + v3] + tail.out, tail.ok)
  {
    var s2, tail2 := StepDigit(a, st, v1, [Digit(a, v2)] + ([Digit(a, v3)] + rest), behavior);
    d := DecodeLastTwo(a, s2, v2, v3, rest, behavior);
    ThreeFront(st.last * 4 + v1 / 16, v1 % 16 * 16 + v2 / 4, v2 % 4 * 64 + v3, Decode(rest, Carry(v3, 0, d), behavior).out);
  }

  lemma DecodeLastTwo(a: Alphabet, st: Carry, v2: nat, v3: nat, rest: seq<Byte>, behavior: Behavior)
    returns (d: Alphabet)
    requires CarryOk(st) && st.bits == 4 && Suits(st.alphabet, a) && v2 < 64 && v3 < 64
    ensures Suits(d, a)
    ensures var tail := Decode(rest, Carry(v3, 0, d), behavior);
            Decode([Digit(a, v2)] + ([Digit(a, v3)] + rest), st, behavior)
            == Decoded([st.last % 16 * 16 + v2 / 4] + ([v2 % 4 * 64 + v3] + tail.out), tail.ok)
  {
    var s3, tail3 := StepDigit(a, st, v2, [Digit(a, v3)] + rest, behavior);
    var s4, tail4 := StepDigit(a, s3, v3, rest, behavior);
    d := s4.alphabet;
  }

  lemma ThreeFront(x: Byte, y: Byte, z: Byte, rest: seq<Byte>)
    ensures [x] + ([y] + ([z] + rest)) == [x, y, z] + rest
  {
  }

  /** Three digits and a pad give back two bytes, two digits and two pads one. */
  lemma DecodeLastGroup(a: Alphabet, st: Carry, bs: seq<Byte>, behavior: Behavior)
    requires CarryOk(st) && st.bits == 0 && Suits(st.alphabet, a) && 1 <= |bs| <= 2
    ensures Decode(Encode(bs, a), st, behavior) == Decoded(bs, true)
  {
    if |bs| == 1 {
      DecodeOneByte(a, st, bs[0], behavior);
      assert bs == [bs[0]];
    } else {
      DecodeTwoBytes(a, st, bs[0], bs[1], behavior);
      assert bs == [bs[0], bs[1]];
    }
  }

  lemma DecodeOneByte(a: Alphabet, st: Carry, b0: Byte, behavior: Behavior)
    requires CarryOk(st) && st.bits == 0 && Suits(st.alphabet, a)
    ensures Decode([Digit(a, b0 / 4), Digit(a, b0 % 4 * 16), PAD, PAD], st, behavior) == Decoded([b0], true)
  {
    var d0, d1 := Digit(a, b0 / 4), Digit(a, b0 % 4 * 16);
    FirstByte(b0, 0);
    var s1, tail1 := StepDigit(a, st, b0 / 4, [d1] + [PAD, PAD], behavior);
    var s2, tail2 := StepDigit(a, s1, b0 % 4 * 16, [PAD, PAD], behavior);
    assert [d0, d1, PAD, PAD] == [d0] + ([d1] + [PAD, PAD]);
    assert [PAD, PAD][1..] == [PAD];
    assert tail2 == Decoded([], true);
  }

  lemma DecodeThree(a: Alphabet, st: Carry, v0: nat, v1: nat, v2: nat, behavior: Behavior)
    requires CarryOk(st) && st.bits == 0 && Suits(st.alphabet, a) && v0 < 64 && v1 < 64 && v2 < 64
    ensures Decode([Digit(a, v0), Digit(a, v1), Digit(a, v2), PAD], st, behavior)
         == Decoded([v0 * 4 + v1 / 16, v1 % 16 * 16 + v2 / 4], true)
  {
    var d0, d1, d2 := Digit(a, v0), Digit(a, v1), Digit(a, v2);
    var s1, tail1 := StepDigit(a, st, v0, [d1] + ([d2] + [PAD]), behavior);
    var s2, tail2 := StepDigit(a, s1, v1, [d2] + [PAD], behavior);
    var s3, tail3 := StepDigit(a, s2, v2, [PAD], behavior);
    assert [d0, d1, d2, PAD] == [d0] + ([d1] + ([d2] + [PAD]));
    assert [PAD][1..] == [];
    assert tail3 == Decoded([], true);
    var c1, c2 := Complete(s1, v1), Complete(s2, v2);
    assert [c1] + ([c2] + []) == [c1, c2];
  }

  lemma DecodeTwoBytes(a: Alphabet, st: Carry, b0: Byte, b1: Byte, behavior: Behavior)
    requires CarryOk(st) && st.bits == 0 && Suits(st.alphabet, a)
    ensures Decode([Digit(a, b0 / 4), Digit(a, b0 % 4 * 16 + b1 / 16), Digit(a, b1 % 16 * 4), PAD], st, behavior)
         == Decoded([b0, b1], true)
  {
    FirstByte(b0, b1 / 16);
    SecondByte(b1, b0 % 4, 0);
    DecodeThree(a, st, b0 / 4, b0 % 4 * 16 + b1 / 16, b1 % 16 * 4, behavior);
  }

  lemma {:induction false} DecodeEncodeFrom(bs: seq<Byte>, a: Alphabet, st: Carry, behavior: Behavior)
    requires CarryOk(st) && st.bits == 0 && Suits(st.alphabet, a)
    ensures Decode(Encode(bs, a), st, behavior) == Decoded(bs, true)
    decreases |bs|
  {
    if |bs| == 0 {
    } else if |bs| < 3 {
      DecodeLastGroup(a, st, bs, behavior);
    } else {
      var d := DecodeGroup(a, st, bs[0], bs[1], bs[2], Encode(bs[3..], a), behavior);
      DecodeEncodeFrom(bs[3..], a, Carry(bs[2] % 64, 0, d), behavior);
      assert bs == [bs[0], bs[1], bs[2]] + bs[3..];
    }
  }

  /** Round trip: whatever alphabet was used to encode, decoding with that alphabet or with detection
      returns the input without error. */
  lemma DecodeUndoesEncode(bs: seq<Byte>, a: Alphabet, d: Alphabet, behavior: Behavior)
    requires d.Auto? || d == Table(a)
    ensures Decode(Encode(bs, a), Begin(d), behavior) == Decoded(bs, true)
  {
    DecodeEncodeFrom(bs, a, Begin(d), behavior);
  }

  // ----- size and acceptance

  /** Each byte written uses eight of the bits read. */
  lemma {:induction false} DecodedBits(s: seq<Byte>, st: Carry, behavior: Behavior)
    requires CarryOk(st)
    ensures 8 * |Decode(s, st, behavior).out| <= 6 * |s| + st.bits
    decreases |s|
  {
    if s != [] && s[0] != PAD {
      match ValueOf(st.alphabet, s[0])
      case Invalid =>
      case Value(part, a) => DecodedBits(s[1..], After(st, part, a), behavior);
    }
  }

  lemma DecodedSize(s: seq<Byte>, a: Alphabet, behavior: Behavior)
    ensures |Decode(s, Begin(a), behavior).out| <= MaxDecodeSize(|s|)
  {
    DecodedBits(s, Begin(a), behavior);
  }

  /** Every character before the padding belongs to the alphabet. */
  predicate Spelled(s: seq<Byte>, a: Alphabet)
    decreases |s|
  {
    s == [] || s[0] == PAD || (ValueOf(a, s[0]).Value? && Spelled(s[1..], a))
  }

  /** From the first pad on there are only pads. */
  predicate Padded(s: seq<Byte>)
    decreases |s|
  {
    s == [] || (if s[0] == PAD then AllPad(s[1..]) else Padded(s[1..]))
  }

  /** The decoder returns normally exactly on text spelled in one alphabet - the given one, or either when
      it detects - and, unless loose, with nothing but padding after the first pad. */
  lemma {:induction false} DecodeAcceptsIff(s: seq<Byte>, st: Carry, behavior: Behavior)
    requires CarryOk(st)
    ensures Decode(s, st, behavior).ok <==>
            && (if st.alphabet.Auto? then Spelled(s, Standard) || Spelled(s, UrlSafe) else Spelled(s, st.alphabet))
            && (behavior.Loose? || Padded(s))
    decreases |s|
  {
    if s != [] && s[0] != PAD {
      match ValueOf(st.alphabet, s[0])
      case Invalid =>
      case Value(part, a) => DecodeAcceptsIff(s[1..], After(st, part, a), behavior);
    }
  }

  lemma StepDigit(a: Alphabet, st: Carry, v: nat, rest: seq<Byte>, behavior: Behavior) returns (st': Carry, tail: Decoded)
    requires CarryOk(st) && Suits(st.alphabet, a) && v < 64
    ensures CarryOk(st') && Suits(st'.alphabet, a)
    ensures st'.last == v && st'.bits == (if st.bits + 6 >= 8 then st.bits - 2 else st.bits + 6)
    ensures tail == Decode(rest, st', behavior)
    ensures Decode([Digit(a, v)] + rest, st, behavior)
         == if st.bits > 0 then Decoded([Complete(st, v)] + tail.out, tail.ok) else tail
  {
    DigitReadsBack(a, st.alphabet, v);
    var s := [Digit(a, v)] + rest;
    assert s[0] == Digit(a, v) && s[1..] == rest;
    st' := After(st, v, ValueOf(st.alphabet, Digit(a, v)).alphabet);
    tail := Decode(rest, st', behavior);
  }

  // ----- the loops as written

  method OnlyPads(s: seq<Byte>, start: nat) returns (ok: bool)
    requires start <= |s|
    ensures ok == AllPad(s[start..])
  {
    var i := start;
    while i != |s|
      invariant start <= i <= |s| && AllPad(s[start..i])
      decreases |s| - i
    {
      var c := s[i];
      i := i + 1;
      if c != PAD {
        assert s[start..][i - 1 - start] != PAD;
        return false;
      }
      assert s[start..i] == s[start..i - 1] + [c];
    }
    assert s[start..i] == s[start..];
    ok := true;
  }

  lemma DecodeUnfolds(done: seq<Byte>, s: seq<Byte>, i: nat, st: Carry, behavior: Behavior)
    requires CarryOk(st) && i < |s| && s[i] != PAD && ValueOf(st.alphabet, s[i]).Value?
    ensures var r := ValueOf(st.alphabet, s[i]);
            var next := Decode(s[i + 1..], After(st, r.value, r.alphabet), behavior);
            && Decode(s[i..], st, behavior).ok == next.ok
            && done + Decode(s[i..], st, behavior).out
               == (if st.bits + 6 >= 8 then done + [Complete(st, r.value)] else done) + next.out
  {
    assert s[i..][0] == s[i] && s[i..][1..] == s[i + 1..];
  }

  lemma DecodeStops(s: seq<Byte>, i: nat, st: Carry, behavior: Behavior)
    requires CarryOk(st) && i < |s| && (s[i] == PAD || ValueOf(st.alphabet, s[i]).Invalid?)
    ensures Decode(s[i..], st, behavior)
         == Decoded([], s[i] == PAD && (behavior.Loose? || AllPad(s[i + 1..])))
  {
    assert s[i..][0] == s[i] && s[i..][1..] == s[i + 1..];
  }

  /** Decoding to a new buffer. */
  method DecodeText(s: seq<Byte>, a: Alphabet, behavior: Behavior) returns (r: Decoded)
    ensures r == Decode(s, Begin(a), behavior)
  {
    var st := Begin(a);
    var out: seq<Byte> := [];
    var i := 0;
    assert s[0..] == s;
    while i != |s|
      invariant i <= |s| && CarryOk(st)
      invariant out + Decode(s[i..], st, behavior).out == Decode(s, Begin(a), behavior).out
      invariant Decode(s[i..], st, behavior).ok == Decode(s, Begin(a), behavior).ok
      decreases |s| - i
    {
      var c := s[i];
      assert s[i..][0] == c && s[i..][1..] == s[i + 1..];
      if c == PAD {
        var pads := OnlyPads(s, i + 1);
        return Decoded(out, behavior.Loose? || pads);
      }
      var v := ValueOf(st.alphabet, c);
      if v.Invalid? {
        return Decoded(out, false);
      }
      DecodeUnfolds(out, s, i, st, behavior);
      if st.bits + 6 >= 8 {
        out := out + [Complete(st, v.value)];
      }
      st := After(st, v.value, v.alphabet);
      i := i + 1;
    }
    r := Decoded(out, true);
  }

  method PutByte(buf: array<Byte>, n: nat, x: Byte)
    requires n < buf.Length
    modifies buf
    ensures buf[..n + 1] == old(buf[..n]) + [x] && buf[n + 1..] == old(buf[n + 1..])
  {
    buf[n] := x;
  }

  lemma Halves(s: seq<Byte>, n: nat)
    requires n <= |s|
    ensures s == s[..n] + s[n..]
  {
  }

  lemma TailAt(s: seq<Byte>, t: seq<Byte>, n: nat, i: nat)
    requires |s| == |t| && n <= i < |s| && s[n..] == t[n..]
    ensures s[i] == t[i] && s[i + 1..] == t[i + 1..] && s[n + 1..] == t[n + 1..]
  {
    assert s[i] == s[n..][i - n] && t[i] == t[n..][i - n];
    assert s[i + 1..] == s[n..][i + 1 - n..] && t[i + 1..] == t[n..][i + 1 - n..];
    assert s[n + 1..] == s[n..][1..] && t[n + 1..] == t[n..][1..];
  }

  /** Part way through decoding in place: `n` bytes are written, `i` characters are read, the unread part of
      the buffer is untouched, and what is written and what is still to come make up the whole result. */
  ghost predicate PartWay(buf: seq<Byte>, s: seq<Byte>, n: nat, i: nat, st: Carry, behavior: Behavior, total: Decoded) {
    && |buf| == |s| && n <= i <= |s| && CarryOk(st) && 8 * n + st.bits == 6 * i
    && buf[n..] == s[n..]
    && buf[..n] + Decode(s[i..], st, behavior).out == total.out
    && Decode(s[i..], st, behavior).ok == total.ok
  }

  /** One character that belongs to the alphabet. */
  method DecodeNext(buf: array<Byte>, n: nat, i: nat, st: Carry, behavior: Behavior, ghost s: seq<Byte>, ghost total: Decoded)
    returns (n': nat, st': Carry)
    requires PartWay(buf[..], s, n, i, st, behavior, total)
    requires i < buf.Length && buf[i] != PAD && ValueOf(st.alphabet, buf[i]).Value?
    modifies buf
    ensures PartWay(buf[..], s, n', i + 1, st', behavior, total)
  {
    TailAt(buf[..], s, n, i);
    var v := ValueOf(st.alphabet, buf[i]);
    DecodeUnfolds(buf[..n], s, i, st, behavior);
    n' := n;
    if st.bits + 6 >= 8 {
      PutByte(buf, n, Complete(st, v.value));
      n' := n + 1;
    }
    st' := After(st, v.value, v.alphabet);
  }

  lemma PartWayStops(buf: seq<Byte>, s: seq<Byte>, n: nat, i: nat, st: Carry, behavior: Behavior, total: Decoded)
    requires PartWay(buf, s, n, i, st, behavior, total)
    requires i < |s| ==> buf[i] == PAD || ValueOf(st.alphabet, buf[i]).Invalid?
    ensures n == |total.out| && buf == total.out + s[n..]
    ensures total.ok == (i == |s| || (buf[i] == PAD && (behavior.Loose? || AllPad(buf[i + 1..]))))
  {
    if i < |s| {
      TailAt(buf, s, n, i);
      DecodeStops(s, i, st, behavior);
    }
    Halves(buf, n);
  }

  /** Decoding over the input itself writes the same bytes as decoding to a new buffer and leaves the rest
      of the array alone, for every input: the write index stays behind the read index. */
  method DecodeInPlace(buf: array<Byte>, a: Alphabet, behavior: Behavior) returns (n: nat, ok: bool)
    modifies buf
    ensures var r := Decode(old(buf[..]), Begin(a), behavior);
            n == |r.out| && n <= buf.Length && ok == r.ok && buf[..] == r.out + old(buf[..])[n..]
  {
    ghost var s := buf[..];
    ghost var total := Decode(s, Begin(a), behavior);
    var st := Begin(a);
    n := 0;
    var i := 0;
    assert s[0..] == s;
    while i != buf.Length && buf[i] != PAD && ValueOf(st.alphabet, buf[i]).Value?
      invariant PartWay(buf[..], s, n, i, st, behavior, total)
      decreases buf.Length - i
    {
      n, st := DecodeNext(buf, n, i, st, behavior, s, total);
      i := i + 1;
    }
    PartWayStops(buf[..], s, n, i, st, behavior, total);
    ok := i == buf.Length;
    if i != buf.Length && buf[i] == PAD {
      var pads := OnlyPads(buf[..], i + 1);
      ok := behavior.Loose? || pads;
    }
  }
}
