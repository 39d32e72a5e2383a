/** UTF-8 as the line editor reads and writes it (common/console.cpp; section 3 of RFC 3629). Bit masks
    and shifts by whole fields are written as ranges, quotients and remainders. */
module Utf8 {
  import opened Bytes

  const MAX_CODE_POINT := 0x10FFFF
  const REPLACEMENT := 0xFFFD

  predicate IsCodePoint(c: int) {
    0 <= c <= MAX_CODE_POINT
  }

  predicate IsText(cs: seq<int>) {
    forall i :: 0 <= i < |cs| ==> IsCodePoint(cs[i])
  }

  predicate IsContinuation(b: Byte) {
    0x80 <= b < 0xC0
  }

  // ----- one code point

  /** Nothing is written for a value above the last code point. */
  function Encode(c: nat): (r: seq<Byte>)
    ensures c <= MAX_CODE_POINT ==> 1 <= |r| <= 4 && !IsContinuation(r[0])
    ensures forall i :: 1 <= i < |r| ==> IsContinuation(r[i])
    ensures c > MAX_CODE_POINT ==> r == []
  {
    if c <= 0x7F then [c]
    else if c <= 0x7FF then [0xC0 + c / 64, 0x80 + c % 64]
    else if c <= 0xFFFF then [0xE0 + c / 4096, 0x80 + c / 64 % 64, 0x80 + c % 64]
    else if c <= MAX_CODE_POINT then
      [0xF0 + c / 262144, 0x80 + c / 4096 % 64, 0x80 + c / 64 % 64, 0x80 + c % 64]
    else []
  }

  /** The payload of a continuation byte. */
  function Low6(b: int): int {
    b % 64
  }

  /** The code point at a position and how many bytes it takes; a malformed byte counts for itself. */
  function Decode(s: seq<Byte>, pos: nat): (r: (int, nat))
    requires pos < |s|
    ensures 1 <= r.1 <= 4 && pos + r.1 <= |s|
  {
    var c: int := s[pos];
    if c < 0x80 then (c, 1)
    else if 0xC0 <= c < 0xE0 && pos + 1 < |s| then
      if !IsContinuation(s[pos + 1]) then (REPLACEMENT, 1)
      else (c % 32 * 64 + Low6(s[pos + 1]), 2)
    else if 0xE0 <= c < 0xF0 && pos + 2 < |s| then
      if !IsContinuation(s[pos + 1]) || !IsContinuation(s[pos + 2]) then (REPLACEMENT, 1)
      else (c % 16 * 4096 + Low6(s[pos + 1]) * 64 + Low6(s[pos + 2]), 3)
    else if 0xF0 <= c < 0xF8 && pos + 3 < |s| then
      if !IsContinuation(s[pos + 1]) || !IsContinuation(s[pos + 2]) || !IsContinuation(s[pos + 3]) then (REPLACEMENT, 1)
      else (c % 8 * 262144 + Low6(s[pos + 1]) * 4096 + Low6(s[pos + 2]) * 64 + Low6(s[pos + 3]), 4)
    else (REPLACEMENT, 1)
  }

  /** Taking a number apart in base 64 and putting it together again. */
  lemma Base64Digits(c: nat)
    ensures c == c / 64 * 64 + c % 64
    ensures c / 64 == c / 4096 * 64 + c / 64 % 64
    ensures c / 4096 == c / 262144 * 64 + c / 4096 % 64
  {
    assert c / 64 / 64 == c / 4096;
    assert c / 4096 / 64 == c / 262144;
  }

  lemma DecodeTwo(x: nat, y: nat)
    requires x < 32 && y < 64
    ensures Decode([0xC0 + x, 0x80 + y], 0) == (x * 64 + y, 2)
  {
  }

  lemma DecodeThree(x: nat, y: nat, z: nat)
    requires x < 16 && y < 64 && z < 64
    ensures Decode([0xE0 + x, 0x80 + y, 0x80 + z], 0) == (x * 4096 + y * 64 + z, 3)
  {
  }

  lemma DecodeFour(x: nat, y: nat, z: nat, u: nat)
    requires x < 8 && y < 64 && z < 64 && u < 64
    ensures Decode([0xF0 + x, 0x80 + y, 0x80 + z, 0x80 + u], 0) == (x * 262144 + y * 4096 + z * 64 + u, 4)
  {
  }

  lemma DecodeEncodeAlone(c: nat)
    requires IsCodePoint(c)
    ensures Decode(Encode(c), 0) == (c, |Encode(c)|)
  {
    Base64Digits(c);
    if c <= 0x7F {
    } else if c <= 0x7FF {
      DecodeTwo(c / 64, c % 64);
    } else if c <= 0xFFFF {
      DecodeThree(c / 4096, c / 64 % 64, c % 64);
    } else {
      DecodeFour(c / 262144, c / 4096 % 64, c / 64 % 64, c % 64);
    }
  }

  /** Decoding looks no further than the code point it returns. */
  lemma DecodeInContext(before: seq<Byte>, e: seq<Byte>, after: seq<Byte>)
    requires e != [] && Decode(e, 0).1 == |e| && (|e| > 1 || e[0] < 0x80)
    ensures Decode(before + e + after, |before|) == Decode(e, 0)
  {
    var s, p := before + e + after, |before|;
    forall i | 0 <= i < |e| ensures s[p + i] == e[i] {
    }
    assert s[p] == e[0];
    if |e| > 1 {
      assert s[p + 1] == e[1];
    }
    if |e| > 2 {
      assert s[p + 2] == e[2];
    }
    if |e| > 3 {
      assert s[p + 3] == e[3];
    }
  }

  /** Decoding undoes encoding, whatever surrounds the bytes. */
  lemma DecodeEncode(before: seq<Byte>, c: nat, after: seq<Byte>)
    requires IsCodePoint(c)
    ensures Decode(before + Encode(c) + after, |before|) == (c, |Encode(c)|)
  {
    DecodeEncodeAlone(c);
    DecodeInContext(before, Encode(c), after);
  }

  // ----- texts

  function EncodeAll(cs: seq<int>): seq<Byte>
    requires IsText(cs)
  {
    if cs == [] then [] else Encode(cs[0]) + EncodeAll(cs[1..])
  }

  lemma {:induction false} EncodeConcat(a: seq<int>, b: seq<int>)
    requires IsText(a) && IsText(b)
    ensures IsText(a + b) && EncodeAll(a + b) == EncodeAll(a) + EncodeAll(b)
    decreases |a|
  {
    if a == [] {
      assert a + b == b;
    } else {
      assert (a + b)[0] == a[0] && (a + b)[1..] == a[1..] + b;
      EncodeConcat(a[1..], b);
      EncodeHead(a);
      EncodeHead(a + b);
      Assoc(Encode(a[0]), EncodeAll(a[1..]), EncodeAll(b));
    }
  }

  lemma EncodeOne(c: int)
    requires IsCodePoint(c)
    ensures IsText([c]) && EncodeAll([c]) == Encode(c)
  {
    assert [c][1..] == [];
    assert Encode(c) + [] == Encode(c);
  }

  /** The byte offset of the `k`-th code point. */
  function Offset(cs: seq<int>, k: nat): nat
    requires IsText(cs) && k <= |cs|
  {
    |EncodeAll(cs[..k])|
  }

  lemma EncodeSplit(cs: seq<int>, k: nat)
    requires IsText(cs) && k <= |cs|
    ensures EncodeAll(cs) == EncodeAll(cs[..k]) + EncodeAll(cs[k..])
    ensures Offset(cs, k) <= |EncodeAll(cs)|
    ensures EncodeAll(cs)[..Offset(cs, k)] == EncodeAll(cs[..k])
    ensures EncodeAll(cs)[Offset(cs, k)..] == EncodeAll(cs[k..])
  {
    assert cs == cs[..k] + cs[k..];
    EncodeConcat(cs[..k], cs[k..]);
  }

  lemma EncodeHead(cs: seq<int>)
    requires IsText(cs) && cs != []
    ensures EncodeAll(cs) == Encode(cs[0]) + EncodeAll(cs[1..])
  {
  }

  lemma Assoc(a: seq<Byte>, b: seq<Byte>, c: seq<Byte>)
    ensures a + (b + c) == a + b + c
  {
  }

  lemma EncodeAt(cs: seq<int>, k: nat)
    requires IsText(cs) && k < |cs|
    ensures EncodeAll(cs) == EncodeAll(cs[..k]) + Encode(cs[k]) + EncodeAll(cs[k + 1..])
    ensures EncodeAll(cs[..k + 1]) == EncodeAll(cs[..k]) + Encode(cs[k])
    ensures Offset(cs, k + 1) == Offset(cs, k) + |Encode(cs[k])|
    ensures Offset(cs, k + 1) <= |EncodeAll(cs)|
  {
    EncodeSplit(cs, k);
    assert cs[k..][0] == cs[k] && cs[k..][1..] == cs[k + 1..];
    EncodeHead(cs[k..]);
    Assoc(EncodeAll(cs[..k]), Encode(cs[k]), EncodeAll(cs[k + 1..]));
    assert cs[..k + 1] == cs[..k] + [cs[k]];
    EncodeConcat(cs[..k], [cs[k]]);
    EncodeOne(cs[k]);
  }

  lemma DecodeAt(cs: seq<int>, k: nat)
    requires IsText(cs) && k < |cs|
    ensures Offset(cs, k) < |EncodeAll(cs)|
    ensures Decode(EncodeAll(cs), Offset(cs, k)) == (cs[k], |Encode(cs[k])|)
  {
    EncodeAt(cs, k);
    DecodeEncode(EncodeAll(cs[..k]), cs[k], EncodeAll(cs[k + 1..]));
  }

  lemma SameHead(a: seq<Byte>, r: seq<Byte>, b: seq<Byte>, q: seq<Byte>)
    requires a + r == b + q && |a| == |b|
    ensures r == q
  {
    assert r == (a + r)[|a|..] && q == (b + q)[|b|..];
  }

  lemma DecodeHead(cs: seq<int>)
    requires IsText(cs) && cs != []
    ensures EncodeAll(cs) != [] && Decode(EncodeAll(cs), 0) == (cs[0], |Encode(cs[0])|)
  {
    DecodeEncode([], cs[0], EncodeAll(cs[1..]));
    NilConcat(Encode(cs[0]), EncodeAll(cs[1..]));
    EncodeHead(cs);
  }

  lemma NilConcat(a: seq<Byte>, b: seq<Byte>)
    ensures [] + a + b == a + b
  {
  }

  /** Different texts have different bytes. */
  lemma {:induction false} EncodeInjective(a: seq<int>, b: seq<int>)
    requires IsText(a) && IsText(b) && EncodeAll(a) == EncodeAll(b)
    ensures a == b
    decreases |a|
  {
    if a != [] {
      DecodeHead(a);
    }
    if b != [] {
      DecodeHead(b);
    }
    if a != [] && b != [] {
      EncodeHead(a);
      EncodeHead(b);
      SameHead(Encode(a[0]), EncodeAll(a[1..]), Encode(b[0]), EncodeAll(b[1..]));
      EncodeInjective(a[1..], b[1..]);
      assert a == [a[0]] + a[1..] && b == [b[0]] + b[1..];
    }
  }

  // ----- moving over bytes

  function SkipContinuation(s: seq<Byte>, pos: nat): (r: nat)
    requires pos <= |s|
    ensures pos <= r <= |s|
    ensures forall i :: pos <= i < r ==> IsContinuation(s[i])
    ensures r < |s| ==> !IsContinuation(s[r])
    decreases |s| - pos
  {
    if pos < |s| && IsContinuation(s[pos]) then SkipContinuation(s, pos + 1) else pos
  }

  function NextPos(s: seq<Byte>, pos: nat): nat {
    if pos >= |s| then |s| else SkipContinuation(s, pos + 1)
  }

  function BackContinuation(s: seq<Byte>, pos: nat): (r: nat)
    requires pos < |s|
    ensures r <= pos
    ensures forall i :: r < i <= pos ==> IsContinuation(s[i])
    ensures r > 0 ==> !IsContinuation(s[r])
  {
    if pos > 0 && IsContinuation(s[pos]) then BackContinuation(s, pos - 1) else pos
  }

  function PrevPos(s: seq<Byte>, pos: nat): nat
    requires pos <= |s|
  {
    if pos == 0 then 0 else BackContinuation(s, pos - 1)
  }

  method NextUtf8CharPos(s: seq<Byte>, start: nat) returns (pos: nat)
    ensures pos == NextPos(s, start)
  {
    pos := start;
    if pos >= |s| {
      return |s|;
    }
    pos := pos + 1;
    while pos < |s| && IsContinuation(s[pos])
      invariant pos <= |s|
      invariant SkipContinuation(s, pos) == SkipContinuation(s, start + 1)
    {
      pos := pos + 1;
    }
  }

  method PrevUtf8CharPos(s: seq<Byte>, start: nat) returns (pos: nat)
    requires start <= |s|
    ensures pos == PrevPos(s, start)
  {
    pos := start;
    if pos == 0 {
      return 0;
    }
    pos := pos - 1;
    while pos > 0 && IsContinuation(s[pos])
      invariant pos < |s|
      invariant BackContinuation(s, pos) == BackContinuation(s, start - 1)
    {
      pos := pos - 1;
    }
  }

  lemma MiddleSlice(a: seq<Byte>, e: seq<Byte>, b: seq<Byte>)
    ensures (a + e + b)[|a|..|a| + |e|] == e
    ensures e != [] ==> (a + e + b)[|a|] == e[0]
  {
  }

  lemma SliceAt(cs: seq<int>, k: nat)
    requires IsText(cs) && k < |cs|
    ensures var s, a, b := EncodeAll(cs), Offset(cs, k), Offset(cs, k + 1);
            a < b <= |s| && s[a..b] == Encode(cs[k]) && !IsContinuation(s[a])
  {
    EncodeAt(cs, k);
    MiddleSlice(EncodeAll(cs[..k]), Encode(cs[k]), EncodeAll(cs[k + 1..]));
  }

  lemma ContinuationsInside(s: seq<Byte>, a: nat, b: nat)
    requires a <= b <= |s| && forall i :: 1 <= i < |s[a..b]| ==> IsContinuation(s[a..b][i])
    ensures forall i :: a < i < b ==> IsContinuation(s[i])
  {
    forall i | a < i < b ensures IsContinuation(s[i]) {
      assert s[i] == s[a..b][i - a];
    }
  }

  /** The bytes of one code point inside a text: a lead byte, then continuation bytes up to the next
      offset, where a new lead byte or the end follows. */
  lemma OffsetShape(cs: seq<int>, k: nat)
    requires IsText(cs) && k < |cs|
    ensures var s, a, b := EncodeAll(cs), Offset(cs, k), Offset(cs, k + 1);
            && a < b <= |s| && !IsContinuation(s[a])
            && (forall i :: a < i < b ==> IsContinuation(s[i]))
            && (b < |s| ==> !IsContinuation(s[b]))
            && s[a..b] == Encode(cs[k])
  {
    SliceAt(cs, k);
    ContinuationsInside(EncodeAll(cs), Offset(cs, k), Offset(cs, k + 1));
    if k + 1 < |cs| {
      SliceAt(cs, k + 1);
    } else {
      OffsetEnds(cs);
    }
  }

  /** Stepping forward from a code point reaches the next one. */
  lemma NextIsNextOffset(cs: seq<int>, k: nat)
    requires IsText(cs) && k < |cs|
    ensures NextPos(EncodeAll(cs), Offset(cs, k)) == Offset(cs, k + 1)
  {
    OffsetShape(cs, k);
    ForwardTo(EncodeAll(cs), Offset(cs, k), Offset(cs, k + 1));
  }

  lemma ForwardTo(s: seq<Byte>, a: nat, b: nat)
    requires a < b <= |s| && (forall i :: a < i < b ==> IsContinuation(s[i])) && (b < |s| ==> !IsContinuation(s[b]))
    ensures NextPos(s, a) == b
  {
    var r := SkipContinuation(s, a + 1);
    assert r < |s| ==> !IsContinuation(s[r]);
  }

  lemma BackTo(s: seq<Byte>, a: nat, b: nat)
    requires a < b <= |s| && !IsContinuation(s[a]) && forall i :: a < i < b ==> IsContinuation(s[i])
    ensures PrevPos(s, b) == a
  {
    var r := BackContinuation(s, b - 1);
    assert r > 0 ==> !IsContinuation(s[r]);
  }

  /** Stepping back reaches the one before. */
  lemma PrevIsPrevOffset(cs: seq<int>, k: nat)
    requires IsText(cs) && 0 < k <= |cs|
    ensures Offset(cs, k) <= |EncodeAll(cs)|
    ensures PrevPos(EncodeAll(cs), Offset(cs, k)) == Offset(cs, k - 1)
  {
    OffsetShape(cs, k - 1);
    BackTo(EncodeAll(cs), Offset(cs, k - 1), Offset(cs, k));
  }

  lemma OffsetEnds(cs: seq<int>)
    requires IsText(cs)
    ensures Offset(cs, 0) == 0 && Offset(cs, |cs|) == |EncodeAll(cs)|
  {
    assert cs[..|cs|] == cs && cs[..0] == [];
  }

  // ----- the encoding of section 3 of RFC 3629

  /** The bits that follow the lead byte, six in each byte. */
  function Tail(bs: seq<Byte>): nat {
    if bs == [] then 0
    else
      var last: int := bs[|bs| - 1];
      Tail(bs[..|bs| - 1]) * 64 + last % 64
  }

  lemma TailOne(b: Byte)
    ensures Tail([b]) == b % 64
  {
    assert [b][..0] == [] && Tail([]) == 0;
  }

  lemma TailTwo(a: Byte, b: Byte)
    ensures Tail([a, b]) == a % 64 * 64 + b % 64
  {
    assert [a, b][..1] == [a];
    TailOne(a);
  }

  lemma TailThree(a: Byte, b: Byte, c: Byte)
    ensures Tail([a, b, c]) == (a % 64 * 64 + b % 64) * 64 + c % 64
  {
    assert [a, b, c][..2] == [a, b];
    TailTwo(a, b);
  }

  /** One byte up to 0x7F; lead byte 110xxxxx and one more up to 0x7FF; 1110xxxx and two up to 0xFFFF; 11110xxx and
      three up to 0x10FFFF. The payloads put together are the code point. */
  lemma EncodedAs(c: nat)
    requires IsCodePoint(c)
    ensures var e := Encode(c);
            if c <= 0x7F then e == [c]
            else if c <= 0x7FF then |e| == 2 && 0xC0 <= e[0] < 0xE0 && (e[0] - 0xC0) * 64 + Tail(e[1..]) == c
            else if c <= 0xFFFF then |e| == 3 && 0xE0 <= e[0] < 0xF0 && (e[0] - 0xE0) * 4096 + Tail(e[1..]) == c
            else |e| == 4 && 0xF0 <= e[0] < 0xF8 && (e[0] - 0xF0) * 262144 + Tail(e[1..]) == c
  {
    if 0x80 <= c <= 0x7FF {
      TwoBytes(c);
    } else if 0x800 <= c <= 0xFFFF {
      ThreeBytes(c);
    } else if c > 0xFFFF {
      FourBytes(c);
    }
  }

  lemma TwoBytes(c: nat)
    requires 0x80 <= c <= 0x7FF
    ensures var e := Encode(c); |e| == 2 && 0xC0 <= e[0] < 0xE0 && (e[0] - 0xC0) * 64 + Tail(e[1..]) == c
  {
    var e := Encode(c);
    assert e[1..] == [e[1]];
    TailOne(e[1]);
  }

  lemma ThreeBytes(c: nat)
    requires 0x800 <= c <= 0xFFFF
    ensures var e := Encode(c); |e| == 3 && 0xE0 <= e[0] < 0xF0 && (e[0] - 0xE0) * 4096 + Tail(e[1..]) == c
  {
    var e := Encode(c);
    assert e[1..] == [e[1], e[2]];
    TailTwo(e[1], e[2]);
    Base64Digits(c);
  }

  lemma FourBytes(c: nat)
    requires 0x10000 <= c <= MAX_CODE_POINT
    ensures var e := Encode(c); |e| == 4 && 0xF0 <= e[0] < 0xF8 && (e[0] - 0xF0) * 262144 + Tail(e[1..]) == c
  {
    var e := Encode(c);
    assert e[1..] == [e[1], e[2], e[3]];
    TailThree(e[1], e[2], e[3]);
    Payload(c / 4096 % 64);
    Payload(c / 64 % 64);
    Payload(c % 64);
    FromDigits(c);
  }

  lemma Payload(x: nat)
    requires x < 64
    ensures (0x80 + x) % 64 == x
  {
  }

  lemma FromDigits(c: nat)
    ensures c / 262144 * 262144 + ((c / 4096 % 64 * 64 + c / 64 % 64) * 64 + c % 64) == c
  {
    Base64Digits(c);
  }

  // ----- decoding any bytes

  /** A lead byte of `n` bytes at `pos`, with the continuation bytes it announces. */
  predicate IsUnit(s: seq<Byte>, pos: nat, n: nat) {
    && pos + n <= |s| && 1 <= n <= 4
    && (n == 1 ==> s[pos] < 0x80) && (n == 2 ==> 0xC0 <= s[pos] < 0xE0)
    && (n == 3 ==> 0xE0 <= s[pos] < 0xF0) && (n == 4 ==> 0xF0 <= s[pos] < 0xF8)
    && forall i :: pos < i < pos + n ==> 0x80 <= s[i] < 0xC0
  }

  /** Where a lead byte has its continuation bytes they are taken together; any other byte is taken alone, as the
      replacement character. */
  lemma DecodeTakes(s: seq<Byte>, pos: nat, n: nat)
    requires pos < |s|
    ensures IsUnit(s, pos, n) ==> Decode(s, pos).1 == n
    ensures (forall k :: 1 <= k <= 4 ==> !IsUnit(s, pos, k)) ==> Decode(s, pos) == (0xFFFD, 1)
  {
    var k := Decode(s, pos).1;
    assert Decode(s, pos) != (0xFFFD, 1) ==> IsUnit(s, pos, k);
  }

  /** The bits of the lead byte and of the continuation bytes are put together. */
  lemma DecodedAs(s: seq<Byte>, pos: nat, n: nat)
    requires IsUnit(s, pos, n)
    ensures var tail := Tail(s[pos + 1..pos + n]);
            Decode(s, pos).0 ==
            if n == 1 then s[pos]
            else if n == 2 then (s[pos] - 0xC0) * 64 + tail
            else if n == 3 then (s[pos] - 0xE0) * 4096 + tail
            else (s[pos] - 0xF0) * 262144 + tail
  {
    if n == 2 {
      assert s[pos + 1..pos + 2] == [s[pos + 1]];
      TailOne(s[pos + 1]);
    } else if n == 3 {
      ThreeDecoded(s, pos);
    } else if n == 4 {
      FourDecoded(s, pos);
    }
  }

  lemma ThreeDecoded(s: seq<Byte>, pos: nat)
    requires IsUnit(s, pos, 3)
    ensures Decode(s, pos).0 == (s[pos] - 0xE0) * 4096 + Tail(s[pos + 1..pos + 3])
  {
    assert s[pos + 1..pos + 3] == [s[pos + 1], s[pos + 2]];
    TailTwo(s[pos + 1], s[pos + 2]);
  }

  lemma FourDecoded(s: seq<Byte>, pos: nat)
    requires IsUnit(s, pos, 4)
    ensures Decode(s, pos).0 == (s[pos] - 0xF0) * 262144 + Tail(s[pos + 1..pos + 4])
  {
    assert s[pos + 1..pos + 4] == [s[pos + 1], s[pos + 2], s[pos + 3]];
    TailThree(s[pos + 1], s[pos + 2], s[pos + 3]);
  }
}
